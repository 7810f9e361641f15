/** Personalized PageRank of packages/retrieval/src/graphrank.ts. */
module GraphRank {
  // The walk runs over the link graph, with negligible mass pruned. `Walk` is the
  // walk as a function of the number of steps; with nothing pruned it is the exact
  // walk.

  import opened Names
  import opened Sums
  import opened WikilinkGraph

  /** Shares below this are not followed. */
  const PRUNE: real := 0.000001

  type Ranks = map<Name, real>

  function Neighbours(adj: AdjacencyLists, n: Name): seq<Name> {
    if n in adj then adj[n] else []
  }

  /** What a node of rank `r` gives each of its `len` neighbours. */
  function Share(alpha: real, r: real, len: nat): real {
    if len == 0 then 0.0 else Product(alpha, r) / (len as real)
  }

  /** Whether the node passes its mass on. */
  predicate Pushes(adj: AdjacencyLists, alpha: real, cut: real, rank: Ranks, node: Name) {
    |Neighbours(adj, node)| > 0 && Share(alpha, At(rank, node), |Neighbours(adj, node)|) >= cut
  }

  /** How often `x` is listed. */
  ghost function Count(list: seq<Name>, x: Name): real {
    if list == [] then 0.0 else Count(list[..|list| - 1], x) + if list[|list| - 1] == x then 1.0 else 0.0
  }

  /** What `node` sends to `x`. */
  ghost function Sent(adj: AdjacencyLists, alpha: real, cut: real, rank: Ranks): (Name, Name) -> real {
    (node, x) =>
      if Pushes(adj, alpha, cut, rank, node)
      then Product(Share(alpha, At(rank, node), |Neighbours(adj, node)|), Count(Neighbours(adj, node), x))
      else 0.0
  }

  ghost function SentTo(adj: AdjacencyLists, alpha: real, cut: real, rank: Ranks, x: Name): Name -> real {
    Row(Flip(Sent(adj, alpha, cut, rank)), x)
  }

  ghost function ReachedKeys(adj: AdjacencyLists, alpha: real, cut: real, rank: Ranks, done: set<Name>): set<Name> {
    set node, x | node in done && Pushes(adj, alpha, cut, rank, node) && x in Neighbours(adj, node) :: x
  }

  ghost function Step(adj: AdjacencyLists, teleport: Ranks, alpha: real, cut: real, rank: Ranks): Ranks {
    map x | x in ReachedKeys(adj, alpha, cut, rank, rank.Keys) + teleport.Keys ::
      Sum(rank.Keys, SentTo(adj, alpha, cut, rank, x)) + Product(1.0 - alpha, At(teleport, x))
  }

  ghost function Walk(adj: AdjacencyLists, teleport: Ranks, alpha: real, cut: real, n: nat): Ranks {
    if n == 0 then teleport else Step(adj, teleport, alpha, cut, Walk(adj, teleport, alpha, cut, n - 1))
  }

  ghost function SeedTotal(seeds: Ranks): real {
    Sum(seeds.Keys, AtFn(seeds))
  }

  ghost function AtFn(m: Ranks): Name -> real {
    x => At(m, x)
  }

  /** The seeds scaled to mass one; left alone when they weigh nothing. */
  ghost function Teleport(seeds: Ranks): Ranks {
    map n | n in seeds :: seeds[n] / if SeedTotal(seeds) == 0.0 then 1.0 else SeedTotal(seeds)
  }

  // ---- the computation

  /** `next` holds what the nodes in `done` have sent. */
  ghost predicate Received(adj: AdjacencyLists, alpha: real, cut: real, rank: Ranks, done: set<Name>, next: Ranks) {
    && next.Keys == ReachedKeys(adj, alpha, cut, rank, done)
    && forall x :: At(next, x) == Sum(done, SentTo(adj, alpha, cut, rank, x))
  }

  /** `next` is `before` with `share` added for every entry of `list`. */
  ghost predicate Spread(before: Ranks, share: real, list: seq<Name>, next: Ranks) {
    && (forall x :: x in next <==> x in before || x in list)
    && forall x :: At(next, x) == At(before, x) + Product(share, Count(list, x))
  }

  lemma SpreadOne(before: Ranks, share: real, list: seq<Name>, i: nat, next: Ranks, after: Ranks)
    requires i < |list| && Spread(before, share, list[..i], next)
    requires after == next[list[i] := At(next, list[i]) + share]
    ensures Spread(before, share, list[..i + 1], after)
  {
    var nb := list[i];
    assert list[..i + 1] == list[..i] + [nb];
    forall x ensures At(after, x) == At(before, x) + Product(share, Count(list[..i + 1], x)) {
      assert list[..i + 1][..i] == list[..i];
      CountMore(share, Count(list[..i], x), if nb == x then 1.0 else 0.0);
    }
  }

  lemma CountMore(share: real, count: real, one: real)
    requires one == 0.0 || one == 1.0
    ensures Product(share, count + one) == Product(share, count) + if one == 1.0 then share else 0.0
  {}

  lemma SpreadNone(before: Ranks, share: real, list: seq<Name>)
    ensures Spread(before, share, list[..0], before)
  {}

  /** Gives every neighbour its share. */
  method SpreadOver(before: Ranks, share: real, list: seq<Name>) returns (next: Ranks)
    ensures Spread(before, share, list, next)
  {
    hide *;
    next := before;
    SpreadNone(before, share, list);
    for i := 0 to |list|
      invariant Spread(before, share, list[..i], next)
    {
      ghost var was := next;
      next := next[list[i] := At(next, list[i]) + share];
      SpreadOne(before, share, list, i, was, next);
    }
    assert list[..|list|] == list;
  }

  lemma ReceivedPush(adj: AdjacencyLists, alpha: real, cut: real, rank: Ranks, done: set<Name>, node: Name, before: Ranks, next: Ranks)
    requires Received(adj, alpha, cut, rank, done, before) && node !in done && Pushes(adj, alpha, cut, rank, node)
    requires Spread(before, Share(alpha, At(rank, node), |Neighbours(adj, node)|), Neighbours(adj, node), next)
    ensures Received(adj, alpha, cut, rank, done + {node}, next)
  {
    hide Product;
    hide Share;
    hide Pushes;
    hide At;
    assert done + {node} - {node} == done;
    forall x ensures At(next, x) == Sum(done + {node}, SentTo(adj, alpha, cut, rank, x)) {
      SumPick(done + {node}, SentTo(adj, alpha, cut, rank, x), node);
    }
    KeysPush(adj, alpha, cut, rank, done, node);
  }

  lemma KeysPush(adj: AdjacencyLists, alpha: real, cut: real, rank: Ranks, done: set<Name>, node: Name)
    ensures forall x :: x in ReachedKeys(adj, alpha, cut, rank, done + {node}) <==>
              x in ReachedKeys(adj, alpha, cut, rank, done) || (Pushes(adj, alpha, cut, rank, node) && x in Neighbours(adj, node))
  {
    hide Pushes;
    hide Neighbours;
    assert node in done + {node};
  }

  lemma ReceivedSkip(adj: AdjacencyLists, alpha: real, cut: real, rank: Ranks, done: set<Name>, node: Name, next: Ranks)
    requires Received(adj, alpha, cut, rank, done, next) && node !in done && !Pushes(adj, alpha, cut, rank, node)
    ensures Received(adj, alpha, cut, rank, done + {node}, next)
  {
    hide Product;
    hide Share;
    hide Pushes;
    hide At;
    assert done + {node} - {node} == done;
    forall x ensures At(next, x) == Sum(done + {node}, SentTo(adj, alpha, cut, rank, x)) {
      SumPick(done + {node}, SentTo(adj, alpha, cut, rank, x), node);
    }
    KeysPush(adj, alpha, cut, rank, done, node);
  }

  lemma ReceivedNone(adj: AdjacencyLists, alpha: real, cut: real, rank: Ranks)
    ensures Received(adj, alpha, cut, rank, {}, map[])
  {}

  /** Every node passes on what it does not prune. */
  method Push(adj: AdjacencyLists, alpha: real, rank: Ranks) returns (next: Ranks)
    ensures Received(adj, alpha, PRUNE, rank, rank.Keys, next)
  {
    hide *;
    next := map[];
    var left := rank.Keys;
    WalkStart(rank.Keys);
    ReceivedNone(adj, alpha, PRUNE, rank);
    while left != {}
      invariant left <= rank.Keys
      invariant Received(adj, alpha, PRUNE, rank, Walked(rank.Keys, left), next)
      decreases |left|
    {
      var node :| node in left;
      WalkOne(rank.Keys, left, node);
      ghost var done := Walked(rank.Keys, left);
      left := left - {node};
      if !Pushes(adj, alpha, PRUNE, rank, node) {
        ReceivedSkip(adj, alpha, PRUNE, rank, done, node, next);
        continue;
      }
      ghost var before := next;
      next := SpreadOver(next, Share(alpha, At(rank, node), |Neighbours(adj, node)|), Neighbours(adj, node));
      ReceivedPush(adj, alpha, PRUNE, rank, done, node, before, next);
    }
    WalkEnd(rank.Keys);
  }

  /** The seeds in `done` have had their mass teleported back to them. */
  ghost predicate Returned(before: Ranks, teleport: Ranks, back: real, done: set<Name>, next: Ranks) {
    && (forall x :: x in next <==> x in before || x in done)
    && forall x :: At(next, x) == At(before, x) + if x in done then Product(back, At(teleport, x)) else 0.0
  }

  lemma ReturnedNone(before: Ranks, teleport: Ranks, back: real)
    ensures Returned(before, teleport, back, {}, before)
  {}

  lemma ReturnedOne(before: Ranks, teleport: Ranks, back: real, done: set<Name>, node: Name, next: Ranks, after: Ranks)
    requires Returned(before, teleport, back, done, next) && node !in done
    requires after == next[node := At(next, node) + Product(back, At(teleport, node))]
    ensures Returned(before, teleport, back, done + {node}, after)
  {
    hide Product;
  }

  /** Adds the teleported mass of the seeds. */
  method Return(teleport: Ranks, back: real, before: Ranks) returns (next: Ranks)
    ensures Returned(before, teleport, back, teleport.Keys, next)
  {
    hide *;
    next := before;
    var left := teleport.Keys;
    WalkStart(teleport.Keys);
    ReturnedNone(before, teleport, back);
    while left != {}
      invariant left <= teleport.Keys
      invariant Returned(before, teleport, back, Walked(teleport.Keys, left), next)
      decreases |left|
    {
      var node :| node in left;
      WalkOne(teleport.Keys, left, node);
      ghost var was := next;
      next := next[node := At(next, node) + Product(back, At(teleport, node))];
      ReturnedOne(before, teleport, back, Walked(teleport.Keys, left), node, was, next);
      left := left - {node};
    }
    WalkEnd(teleport.Keys);
  }

  lemma StepDone(adj: AdjacencyLists, teleport: Ranks, alpha: real, rank: Ranks, sent: Ranks, next: Ranks)
    requires Received(adj, alpha, PRUNE, rank, rank.Keys, sent)
    requires Returned(sent, teleport, 1.0 - alpha, teleport.Keys, next)
    ensures next == Step(adj, teleport, alpha, PRUNE, rank)
  {
    hide *;
    ReceivedIs(adj, alpha, PRUNE, rank, rank.Keys, sent);
    ReturnedIs(sent, teleport, 1.0 - alpha, teleport.Keys, next);
    forall x | x in next
      ensures next[x] == Sum(rank.Keys, SentTo(adj, alpha, PRUNE, rank, x)) + Product(1.0 - alpha, At(teleport, x))
    {
      AtIs(next, x);
      AtIs(teleport, x);
      Distribute(1.0 - alpha, 0.0, 0.0);
    }
    StepIs(adj, teleport, alpha, PRUNE, rank, next);
  }

  lemma AtIs(m: Ranks, x: Name)
    ensures At(m, x) == if x in m then m[x] else 0.0
  {}

  lemma ReceivedIs(adj: AdjacencyLists, alpha: real, cut: real, rank: Ranks, done: set<Name>, next: Ranks)
    requires Received(adj, alpha, cut, rank, done, next)
    ensures next.Keys == ReachedKeys(adj, alpha, cut, rank, done)
    ensures forall x :: At(next, x) == Sum(done, SentTo(adj, alpha, cut, rank, x))
  {}

  lemma ReturnedIs(before: Ranks, teleport: Ranks, back: real, done: set<Name>, next: Ranks)
    requires Returned(before, teleport, back, done, next)
    ensures next.Keys == before.Keys + done
    ensures forall x :: At(next, x) == At(before, x) + if x in done then Product(back, At(teleport, x)) else 0.0
  {}

  lemma StepIs(adj: AdjacencyLists, teleport: Ranks, alpha: real, cut: real, rank: Ranks, next: Ranks)
    requires next.Keys == ReachedKeys(adj, alpha, cut, rank, rank.Keys) + teleport.Keys
    requires forall x :: x in next ==>
      next[x] == Sum(rank.Keys, SentTo(adj, alpha, cut, rank, x)) + Product(1.0 - alpha, At(teleport, x))
    ensures next == Step(adj, teleport, alpha, cut, rank)
  {
    hide Product;
    hide ReachedKeys;
    hide SentTo;
  }

  /** Adds up the weights of the seeds. */
  method TotalSeeds(seeds: Ranks) returns (total: real)
    ensures total == SeedTotal(seeds)
  {
    hide At;
    total := 0.0;
    var left := seeds.Keys;
    while left != {}
      invariant left <= seeds.Keys
      invariant total + Sum(left, AtFn(seeds)) == SeedTotal(seeds)
      decreases |left|
    {
      var n :| n in left;
      SumPick(left, AtFn(seeds), n);
      total := total + At(seeds, n);
      left := left - {n};
    }
  }

  /** The walk the ranker takes; `taken` are the ranks after each step, the scaled seeds first. */
  method PersonalizedPageRank(adj: AdjacencyLists, seeds: Ranks, alpha: real, iterations: nat) returns (rank: Ranks, ghost taken: seq<Ranks>)
    ensures rank == Walk(adj, Teleport(seeds), alpha, PRUNE, iterations)
    ensures |taken| == iterations + 1 && taken[iterations] == rank && Scaled(seeds, taken[0])
    ensures forall i :: 0 <= i < iterations ==> OneStep(adj, taken[0], alpha, taken[i], taken[i + 1])
  {
    hide *;
    var teleport := ScaleSeeds(seeds);
    rank := teleport;
    taken := [rank];
    WalkSteps(adj, teleport, alpha, PRUNE, 0);
    TeleportScales(seeds);
    for i := 0 to iterations
      invariant rank == Walk(adj, teleport, alpha, PRUNE, i)
      invariant |taken| == i + 1 && taken[0] == teleport && taken[i] == rank
      invariant forall j :: 0 <= j < i ==> OneStep(adj, teleport, alpha, taken[j], taken[j + 1])
    {
      var sent := Push(adj, alpha, rank);
      var next := Return(teleport, 1.0 - alpha, sent);
      StepDone(adj, teleport, alpha, rank, sent, next);
      StepIsOneStep(adj, teleport, alpha, rank);
      WalkSteps(adj, teleport, alpha, PRUNE, i);
      rank := next;
      taken := taken + [rank];
    }
  }

  // ---- one step, read off the adjacency lists

  /** The part of its rank that each entry of a node's list is given. */
  ghost function Portion(adj: AdjacencyLists, alpha: real, now: Ranks, node: Name): real
    requires node in now && node in adj && |adj[node]| > 0
  {
    alpha * now[node] / |adj[node]| as real
  }

  /** A ranked node with neighbours passes its rank on, unless the portions are below a millionth. */
  ghost predicate Follows(adj: AdjacencyLists, alpha: real, now: Ranks, node: Name) {
    node in now && node in adj && |adj[node]| > 0 && Portion(adj, alpha, now, node) >= 0.000001
  }

  /** What arrives at `x` from each node: a portion for every time it is listed. */
  ghost function Arrives(adj: AdjacencyLists, alpha: real, now: Ranks, x: Name): Name -> real {
    node => if Follows(adj, alpha, now, node) then Portion(adj, alpha, now, node) * multiset(adj[node])[x] as real else 0.0
  }

  /** Some followed node lists `x`. */
  ghost predicate IsReached(adj: AdjacencyLists, alpha: real, now: Ranks, x: Name) {
    exists node :: Follows(adj, alpha, now, node) && x in adj[node]
  }

  /** `next` ranks the seeds and what is reached: by what arrives, and by what is teleported. */
  ghost predicate OneStep(adj: AdjacencyLists, teleport: Ranks, alpha: real, now: Ranks, next: Ranks) {
    && (forall x :: x in next <==> x in teleport || IsReached(adj, alpha, now, x))
    && forall x :: x in next ==>
         next[x] == Sum(now.Keys, Arrives(adj, alpha, now, x)) + if x in teleport then (1.0 - alpha) * teleport[x] else 0.0
  }

  /** Every seed by its weight, over the total of the weights where there is one. */
  ghost predicate Scaled(seeds: Ranks, teleport: Ranks) {
    var total := Sum(seeds.Keys, AtFn(seeds));
    teleport.Keys == seeds.Keys && forall n :: n in seeds ==> teleport[n] == if total == 0.0 then seeds[n] else seeds[n] / total
  }

  lemma TeleportScales(seeds: Ranks)
    ensures Scaled(seeds, Teleport(seeds))
  {}

  lemma {:induction false} CountIs(list: seq<Name>, x: Name)
    ensures Count(list, x) == multiset(list)[x] as real
  {
    if list != [] {
      CountIs(list[..|list| - 1], x);
      assert list == list[..|list| - 1] + [list[|list| - 1]];
    }
  }

  lemma PushesIs(adj: AdjacencyLists, alpha: real, now: Ranks, node: Name)
    requires node in now
    ensures Pushes(adj, alpha, PRUNE, now, node) <==> Follows(adj, alpha, now, node)
    ensures Follows(adj, alpha, now, node) ==>
      node in adj && Neighbours(adj, node) == adj[node] && Share(alpha, At(now, node), |adj[node]|) == Portion(adj, alpha, now, node)
  {}

  lemma SentIs(adj: AdjacencyLists, alpha: real, now: Ranks, node: Name, x: Name)
    requires node in now
    ensures SentTo(adj, alpha, PRUNE, now, x)(node) == Arrives(adj, alpha, now, x)(node)
  {
    hide Pushes;
    hide Follows;
    hide Portion;
    hide Share;
    hide Neighbours;
    PushesIs(adj, alpha, now, node);
    if Follows(adj, alpha, now, node) { CountIs(adj[node], x); }
  }

  lemma ReachedIs(adj: AdjacencyLists, alpha: real, now: Ranks, x: Name)
    ensures x in ReachedKeys(adj, alpha, PRUNE, now, now.Keys) <==> IsReached(adj, alpha, now, x)
  {
    hide Pushes;
    hide Portion;
    hide Share;
    hide Neighbours;
    forall node | node in now
      ensures Pushes(adj, alpha, PRUNE, now, node) && x in Neighbours(adj, node) <==> Follows(adj, alpha, now, node) && x in adj[node]
    {
      PushesIs(adj, alpha, now, node);
    }
  }

  /** The step of the walk is that step. */
  lemma StepIsOneStep(adj: AdjacencyLists, teleport: Ranks, alpha: real, now: Ranks)
    ensures OneStep(adj, teleport, alpha, now, Step(adj, teleport, alpha, PRUNE, now))
  {
    hide ReachedKeys;
    hide SentTo;
    hide Arrives;
    hide IsReached;
    forall x ensures x in ReachedKeys(adj, alpha, PRUNE, now, now.Keys) <==> IsReached(adj, alpha, now, x) {
      ReachedIs(adj, alpha, now, x);
    }
    forall x ensures Sum(now.Keys, SentTo(adj, alpha, PRUNE, now, x)) == Sum(now.Keys, Arrives(adj, alpha, now, x)) {
      forall node | node in now.Keys ensures SentTo(adj, alpha, PRUNE, now, x)(node) == Arrives(adj, alpha, now, x)(node) {
        SentIs(adj, alpha, now, node, x);
      }
      SumEq(now.Keys, SentTo(adj, alpha, PRUNE, now, x), Arrives(adj, alpha, now, x));
    }
  }

  /** At every step a node that passes its rank on gives each of its neighbours at least its portion. */
  lemma NeighboursGetTheirPortion(adj: AdjacencyLists, seeds: Ranks, alpha: real, n: nat, node: Name, x: Name)
    requires 0.0 <= alpha <= 1.0 && NonNegative(seeds)
    requires var now := Walk(adj, Teleport(seeds), alpha, PRUNE, n);
      node in now && node in adj && x in adj[node] && alpha * now[node] / |adj[node]| as real >= 0.000001
    ensures var now, next := Walk(adj, Teleport(seeds), alpha, PRUNE, n), Walk(adj, Teleport(seeds), alpha, PRUNE, n + 1);
      x in next && next[x] >= alpha * now[node] / |adj[node]| as real
  {
    hide *;
    var teleport := Teleport(seeds);
    var now := Walk(adj, teleport, alpha, PRUNE, n);
    TeleportNonNegative(seeds);
    PruneIs();
    PrunedBelowExact(adj, teleport, alpha, PRUNE, n);
    WalkSteps(adj, teleport, alpha, PRUNE, n);
    StepIsOneStep(adj, teleport, alpha, now);
    PortionArrives(adj, teleport, alpha, now, Step(adj, teleport, alpha, PRUNE, now), node, x);
  }

  lemma PortionArrives(adj: AdjacencyLists, teleport: Ranks, alpha: real, now: Ranks, next: Ranks, node: Name, x: Name)
    requires 0.0 <= alpha <= 1.0 && NonNegative(teleport) && NonNegative(now) && OneStep(adj, teleport, alpha, now, next)
    requires node in now && node in adj && x in adj[node] && alpha * now[node] / |adj[node]| as real >= 0.000001
    ensures x in next && next[x] >= alpha * now[node] / |adj[node]| as real
  {
    hide IsReached;
    hide Arrives;
    hide NonNegative;
    assert Follows(adj, alpha, now, node);
    ReachedBy(adj, alpha, now, node, x);
    forall y ensures Arrives(adj, alpha, now, x)(y) >= 0.0 { ArrivesNonNegative(adj, alpha, now, y, x); }
    SumTermLe(now.Keys, Arrives(adj, alpha, now, x), node);
    ArrivesAtLeast(adj, alpha, now, node, x);
    if x in teleport { BackNonNegative(teleport, alpha, x); }
  }

  lemma PruneIs()
    ensures PRUNE == 0.000001
  {}

  lemma BackNonNegative(teleport: Ranks, alpha: real, x: Name)
    requires alpha <= 1.0 && NonNegative(teleport) && x in teleport
    ensures (1.0 - alpha) * teleport[x] >= 0.0
  {
    assert At(teleport, x) >= 0.0;
  }

  lemma ReachedBy(adj: AdjacencyLists, alpha: real, now: Ranks, node: Name, x: Name)
    requires Follows(adj, alpha, now, node) && x in adj[node]
    ensures IsReached(adj, alpha, now, x)
  {}

  lemma ArrivesNonNegative(adj: AdjacencyLists, alpha: real, now: Ranks, node: Name, x: Name)
    ensures Arrives(adj, alpha, now, x)(node) >= 0.0
  {
    hide Portion;
  }

  lemma ArrivesAtLeast(adj: AdjacencyLists, alpha: real, now: Ranks, node: Name, x: Name)
    requires Follows(adj, alpha, now, node) && x in adj[node]
    ensures Arrives(adj, alpha, now, x)(node) >= Portion(adj, alpha, now, node)
  {
    hide Portion;
    var c := multiset(adj[node])[x];
    assert c >= 1;
    assert Portion(adj, alpha, now, node) * (c as real - 1.0) >= 0.0;
  }

  /** From one seed of weight one, one step gives every neighbour its part of `alpha`. */
  lemma OneSeedReachesItsNeighbours(adj: AdjacencyLists, seed: Name, alpha: real, x: Name)
    requires 0.0 <= alpha <= 1.0 && seed in adj && x in adj[seed] && alpha / |adj[seed]| as real >= 0.000001
    ensures var next := Walk(adj, Teleport(map[seed := 1.0]), alpha, PRUNE, 1);
      x in next && next[x] >= alpha / |adj[seed]| as real
  {
    hide *;
    var seeds: Ranks := map[seed := 1.0];
    OneSeed(seed);
    WalkSteps(adj, Teleport(seeds), alpha, PRUNE, 0);
    NeighboursGetTheirPortion(adj, seeds, alpha, 0, seed, x);
  }

  lemma OneSeed(seed: Name)
    ensures NonNegative(map[seed := 1.0]) && Teleport(map[seed := 1.0]) == map[seed := 1.0]
  {
    var seeds: Ranks := map[seed := 1.0];
    assert seeds.Keys == {seed};
    SumPoint({seed}, AtFn(seeds), seed);
    assert AtFn(seeds)(seed) == 1.0;
  }

  /** The teleport distribution: each seed's weight over the total. */
  method ScaleSeeds(seeds: Ranks) returns (teleport: Ranks)
    ensures teleport == Teleport(seeds)
  {
    var total := TotalSeeds(seeds);
    if total == 0.0 { total := 1.0; }
    teleport := map n | n in seeds :: seeds[n] / total;
  }

  lemma WalkSteps(adj: AdjacencyLists, teleport: Ranks, alpha: real, cut: real, i: nat)
    ensures Walk(adj, teleport, alpha, cut, 0) == teleport
    ensures Walk(adj, teleport, alpha, cut, i + 1) == Step(adj, teleport, alpha, cut, Walk(adj, teleport, alpha, cut, i))
  {}

  // ---- what the walk reaches

  /** Nodes within `n` hops of `from`, along the adjacency lists. */
  ghost function Hops(adj: AdjacencyLists, from: set<Name>, n: nat): set<Name> {
    if n == 0 then from
    else Hops(adj, from, n - 1) + set node, x | node in Hops(adj, from, n - 1) && x in Neighbours(adj, node) :: x
  }

  lemma {:induction false} HopsKeep(adj: AdjacencyLists, from: set<Name>, n: nat)
    ensures from <= Hops(adj, from, n)
  {
    if n > 0 { HopsKeep(adj, from, n - 1); }
  }

  lemma StepReaches(adj: AdjacencyLists, teleport: Ranks, alpha: real, cut: real, rank: Ranks, reached: set<Name>, next: set<Name>)
    requires rank.Keys <= reached && teleport.Keys <= next
    requires forall node, x :: node in reached && x in Neighbours(adj, node) ==> x in next
    ensures Step(adj, teleport, alpha, cut, rank).Keys <= next
  {
    hide Pushes;
    hide Neighbours;
    hide Product;
    hide SentTo;
  }

  /** After `n` steps the walk has ranked nothing further than `n` hops from a seed. */
  lemma {:induction false} WalkStaysLocal(adj: AdjacencyLists, teleport: Ranks, alpha: real, cut: real, n: nat)
    ensures Walk(adj, teleport, alpha, cut, n).Keys <= Hops(adj, teleport.Keys, n)
  {
    hide Step;
    hide Neighbours;
    if n > 0 {
      WalkStaysLocal(adj, teleport, alpha, cut, n - 1);
      HopsKeep(adj, teleport.Keys, n);
      StepReaches(adj, teleport, alpha, cut, Walk(adj, teleport, alpha, cut, n - 1),
        Hops(adj, teleport.Keys, n - 1), Hops(adj, teleport.Keys, n));
    }
  }

  // ---- mass

  /** Every node the walk can meet. */
  ghost function Universe(adj: AdjacencyLists, teleport: Ranks): set<Name> {
    teleport.Keys + adj.Keys + set node, x | node in adj && x in adj[node] :: x
  }

  lemma {:induction false} WalkInUniverse(adj: AdjacencyLists, teleport: Ranks, alpha: real, cut: real, n: nat)
    ensures Walk(adj, teleport, alpha, cut, n).Keys <= Universe(adj, teleport)
  {
    hide Pushes;
    if n > 0 {
      WalkInUniverse(adj, teleport, alpha, cut, n - 1);
    }
  }

  ghost function Mass(u: set<Name>, m: Ranks): real {
    Sum(u, AtFn(m))
  }

  /** What a step does to a node, over any set that holds all ranked nodes. */
  lemma StepAt(adj: AdjacencyLists, teleport: Ranks, alpha: real, cut: real, rank: Ranks, u: set<Name>, x: Name)
    requires rank.Keys <= u && cut >= 0.0
    ensures At(Step(adj, teleport, alpha, cut, rank), x)
         == Sum(u, SentTo(adj, alpha, cut, rank, x)) + Product(1.0 - alpha, At(teleport, x))
  {
    hide Product;
    forall node | node in u && node !in rank ensures SentTo(adj, alpha, cut, rank, x)(node) == 0.0 {
      UnrankedSendsNothing(adj, alpha, cut, rank, node, x);
    }
    SumSupport(rank.Keys, u, SentTo(adj, alpha, cut, rank, x));
    if x !in ReachedKeys(adj, alpha, cut, rank, rank.Keys) {
      forall node | node in rank.Keys ensures SentTo(adj, alpha, cut, rank, x)(node) == 0.0 {
        NotListedGetsNothing(adj, alpha, cut, rank, node, x);
      }
      SumZero(rank.Keys, SentTo(adj, alpha, cut, rank, x));
    }
    Distribute(1.0 - alpha, 0.0, 0.0);
  }

  lemma UnrankedSendsNothing(adj: AdjacencyLists, alpha: real, cut: real, rank: Ranks, node: Name, x: Name)
    requires node !in rank
    ensures Sent(adj, alpha, cut, rank)(node, x) == 0.0
  {}

  lemma {:induction false} NotListedCount(list: seq<Name>, x: Name)
    requires x !in list
    ensures Count(list, x) == 0.0
  {
    if list != [] { NotListedCount(list[..|list| - 1], x); }
  }

  lemma NotListedGetsNothing(adj: AdjacencyLists, alpha: real, cut: real, rank: Ranks, node: Name, x: Name)
    requires !(Pushes(adj, alpha, cut, rank, node) && x in Neighbours(adj, node))
    ensures Sent(adj, alpha, cut, rank)(node, x) == 0.0
  {
    hide Pushes;
    hide Share;
    if x !in Neighbours(adj, node) { NotListedCount(Neighbours(adj, node), x); }
  }

  ghost function CountFn(list: seq<Name>): Name -> real {
    x => Count(list, x)
  }

  lemma {:induction false} CountTotal(list: seq<Name>, u: set<Name>)
    requires forall x :: x in list ==> x in u
    ensures Sum(u, CountFn(list)) == |list| as real
  {
    if list == [] {
      SumZero(u, CountFn(list));
    } else {
      var init, last := list[..|list| - 1], list[|list| - 1];
      var one := (x: Name) => if last == x then 1.0 else 0.0;
      CountTotal(init, u);
      SumPoint(u, one, last);
      SumAdd(u, CountFn(init), one, CountFn(list));
    }
  }

  lemma ShareTimes(alpha: real, r: real, len: nat)
    requires len > 0
    ensures Product(Share(alpha, r, len), len as real) == Product(alpha, r)
  {}

  /** What a node gives away in all. */
  ghost function Given(adj: AdjacencyLists, alpha: real, cut: real, rank: Ranks): Name -> real {
    node => if Pushes(adj, alpha, cut, rank, node) then Product(alpha, At(rank, node)) else 0.0
  }

  lemma GivenIsSent(adj: AdjacencyLists, alpha: real, cut: real, rank: Ranks, u: set<Name>, node: Name)
    requires forall x :: x in Neighbours(adj, node) ==> x in u
    ensures Sum(u, Row(Sent(adj, alpha, cut, rank), node)) == Given(adj, alpha, cut, rank)(node)
  {
    hide Share;
    hide Product;
    var list := Neighbours(adj, node);
    if Pushes(adj, alpha, cut, rank, node) {
      CountTotal(list, u);
      SumScale(u, Share(alpha, At(rank, node), |list|), CountFn(list), Row(Sent(adj, alpha, cut, rank), node));
      ShareTimes(alpha, At(rank, node), |list|);
    } else {
      SumZero(u, Row(Sent(adj, alpha, cut, rank), node));
    }
  }

  lemma NeighboursKnown(adj: AdjacencyLists, teleport: Ranks, node: Name)
    ensures forall x :: x in Neighbours(adj, node) ==> x in Universe(adj, teleport)
  {}

  /** The mass after a step: what the nodes gave, and what was teleported. */
  lemma StepMass(adj: AdjacencyLists, teleport: Ranks, alpha: real, cut: real, rank: Ranks)
    requires rank.Keys <= Universe(adj, teleport) && cut >= 0.0
    ensures var u := Universe(adj, teleport);
      Mass(u, Step(adj, teleport, alpha, cut, rank)) == Sum(u, Given(adj, alpha, cut, rank)) + Product(1.0 - alpha, Mass(u, teleport))
  {
    hide *;
    var u := Universe(adj, teleport);
    var sent := Sent(adj, alpha, cut, rank);
    var next := AtFn(Step(adj, teleport, alpha, cut, rank));
    var back := BackFn(teleport, alpha);
    forall x | x in u ensures next(x) == RowSums(u, Flip(sent))(x) + back(x) {
      StepAt(adj, teleport, alpha, cut, rank, u, x);
      StepTerms(adj, teleport, alpha, cut, rank, u, x);
    }
    SumAdd(u, RowSums(u, Flip(sent)), back, next);
    BackMass(u, teleport, alpha);
    Sum2Swap(u, u, sent);
    forall node | node in u ensures RowSums(u, sent)(node) == Given(adj, alpha, cut, rank)(node) {
      NeighboursKnown(adj, teleport, node);
      GivenIsSent(adj, alpha, cut, rank, u, node);
      RowSumsIs(u, sent, node);
    }
    SumEq(u, RowSums(u, sent), Given(adj, alpha, cut, rank));
    SwapIs(u, sent);
    MassIs(u, Step(adj, teleport, alpha, cut, rank));
  }

  ghost function BackFn(teleport: Ranks, alpha: real): Name -> real {
    x => Product(1.0 - alpha, At(teleport, x))
  }

  lemma StepTerms(adj: AdjacencyLists, teleport: Ranks, alpha: real, cut: real, rank: Ranks, u: set<Name>, x: Name)
    ensures RowSums(u, Flip(Sent(adj, alpha, cut, rank)))(x) == Sum(u, SentTo(adj, alpha, cut, rank, x))
    ensures BackFn(teleport, alpha)(x) == Product(1.0 - alpha, At(teleport, x))
    ensures AtFn(Step(adj, teleport, alpha, cut, rank))(x) == At(Step(adj, teleport, alpha, cut, rank), x)
  {
    hide Product;
  }

  lemma BackMass(u: set<Name>, teleport: Ranks, alpha: real)
    ensures Sum(u, BackFn(teleport, alpha)) == Product(1.0 - alpha, Mass(u, teleport))
  {
    hide Product;
    SumScale(u, 1.0 - alpha, AtFn(teleport), BackFn(teleport, alpha));
  }

  lemma RowSumsIs(u: set<Name>, f: (Name, Name) -> real, x: Name)
    ensures RowSums(u, f)(x) == Sum(u, Row(f, x))
  {}

  lemma SwapIs(u: set<Name>, f: (Name, Name) -> real)
    ensures Sum2(u, u, f) == Sum(u, RowSums(u, f)) && Sum2(u, u, Flip(f)) == Sum(u, RowSums(u, Flip(f)))
  {}

  lemma MassIs(u: set<Name>, m: Ranks)
    ensures Mass(u, m) == Sum(u, AtFn(m))
  {}

  // ---- how much pruning costs

  ghost predicate NonNegative(m: Ranks) {
    forall x :: At(m, x) >= 0.0
  }

  ghost predicate Below(p: Ranks, e: Ranks) {
    forall x :: At(p, x) <= At(e, x)
  }

  lemma ShareOrder(alpha: real, p: real, e: real, len: nat)
    requires 0.0 <= alpha && 0.0 <= p <= e
    ensures 0.0 <= Share(alpha, p, len) <= Share(alpha, e, len)
    ensures 0.0 <= Product(alpha, p) <= Product(alpha, e)
  {
    hide Product;
    ProductOrder(p, e, alpha);
    Commute(alpha, p);
    Commute(alpha, e);
    if len > 0 {
      DivideOrder(Product(alpha, p), Product(alpha, e), len as real);
    }
  }

  lemma Commute(a: real, b: real)
    ensures Product(a, b) == Product(b, a)
  {}

  lemma DivideOrder(a: real, b: real, c: real)
    requires 0.0 <= a <= b && c > 0.0
    ensures 0.0 <= a / c <= b / c
  {}

  lemma {:induction false} CountNonNegative(list: seq<Name>, x: Name)
    ensures Count(list, x) >= 0.0
  {
    if list != [] { CountNonNegative(list[..|list| - 1], x); }
  }

  lemma ProductOrder(a: real, b: real, c: real)
    requires 0.0 <= a <= b && 0.0 <= c
    ensures 0.0 <= Product(a, c) <= Product(b, c)
  {}

  /** A node of the pruned walk sends no more than the same node of the exact walk. */
  lemma SentBelow(adj: AdjacencyLists, alpha: real, cut: real, p: Ranks, e: Ranks, node: Name, x: Name)
    requires 0.0 <= alpha && 0.0 <= cut && NonNegative(p) && Below(p, e)
    ensures 0.0 <= Sent(adj, alpha, cut, p)(node, x) <= Sent(adj, alpha, 0.0, e)(node, x)
  {
    hide Share;
    hide Product;
    var list := Neighbours(adj, node);
    ShareOrder(alpha, At(p, node), At(e, node), |list|);
    CountNonNegative(list, x);
    ProductOrder(Share(alpha, At(p, node), |list|), Share(alpha, At(e, node), |list|), Count(list, x));
  }

  lemma StepBelow(adj: AdjacencyLists, teleport: Ranks, alpha: real, cut: real, p: Ranks, e: Ranks, x: Name)
    requires 0.0 <= alpha <= 1.0 && 0.0 <= cut && NonNegative(p) && Below(p, e) && NonNegative(teleport)
    ensures 0.0 <= At(Step(adj, teleport, alpha, cut, p), x) <= At(Step(adj, teleport, alpha, 0.0, e), x)
  {
    hide Step;
    hide Product;
    hide SentTo;
    var u := p.Keys + e.Keys;
    StepAt(adj, teleport, alpha, cut, p, u, x);
    StepAt(adj, teleport, alpha, 0.0, e, u, x);
    forall node ensures 0.0 <= SentTo(adj, alpha, cut, p, x)(node) <= SentTo(adj, alpha, 0.0, e, x)(node) {
      SentBelow(adj, alpha, cut, p, e, node, x);
      SentToIs(adj, alpha, cut, p, x, node);
      SentToIs(adj, alpha, 0.0, e, x, node);
    }
    SumNonNegative(u, SentTo(adj, alpha, cut, p, x));
    SumLe(u, SentTo(adj, alpha, cut, p, x), SentTo(adj, alpha, 0.0, e, x));
    ProductOrder(1.0 - alpha, 1.0 - alpha, At(teleport, x));
  }

  lemma SentToIs(adj: AdjacencyLists, alpha: real, cut: real, rank: Ranks, x: Name, node: Name)
    ensures SentTo(adj, alpha, cut, rank, x)(node) == Sent(adj, alpha, cut, rank)(node, x)
  {
    hide Sent;
  }

  /** At every node and after every step, the pruned walk is below the exact one. */
  lemma {:induction false} PrunedBelowExact(adj: AdjacencyLists, teleport: Ranks, alpha: real, cut: real, n: nat)
    requires 0.0 <= alpha <= 1.0 && 0.0 <= cut && NonNegative(teleport)
    ensures NonNegative(Walk(adj, teleport, alpha, cut, n))
    ensures Below(Walk(adj, teleport, alpha, cut, n), Walk(adj, teleport, alpha, 0.0, n))
  {
    hide Step;
    if n > 0 {
      PrunedBelowExact(adj, teleport, alpha, cut, n - 1);
      var p, e := Walk(adj, teleport, alpha, cut, n - 1), Walk(adj, teleport, alpha, 0.0, n - 1);
      forall x ensures 0.0 <= At(Step(adj, teleport, alpha, cut, p), x) <= At(Step(adj, teleport, alpha, 0.0, e), x) {
        StepBelow(adj, teleport, alpha, cut, p, e, x);
      }
    }
  }

  ghost function Lengths(adj: AdjacencyLists): Name -> real {
    node => |Neighbours(adj, node)| as real
  }

  /** The number of adjacency entries. */
  ghost function Entries(adj: AdjacencyLists): real {
    Sum(adj.Keys, Lengths(adj))
  }

  /** 1 + alpha + ... + alpha^(n-1) */
  ghost function Geometric(alpha: real, n: nat): real {
    if n == 0 then 0.0 else 1.0 + Product(alpha, Geometric(alpha, n - 1))
  }

  /** The pruned node misses what the exact one has more, and at most the cut for each entry. */
  lemma GivenGap(adj: AdjacencyLists, alpha: real, cut: real, p: Ranks, e: Ranks, node: Name)
    requires 0.0 <= alpha && 0.0 <= cut && NonNegative(p) && Below(p, e)
    ensures Given(adj, alpha, 0.0, e)(node)
         <= Given(adj, alpha, cut, p)(node) + (Product(alpha, At(e, node)) - Product(alpha, At(p, node))) + Product(cut, Lengths(adj)(node))
  {
    hide Share;
    hide Product;
    var len := |Neighbours(adj, node)|;
    ShareOrder(alpha, At(p, node), At(e, node), len);
    ProductOrder(cut, cut, len as real);
    if len > 0 && Share(alpha, At(p, node), len) < cut {
      ShareTimes(alpha, At(p, node), len);
      ProductOrder(Share(alpha, At(p, node), len), cut, len as real);
    }
  }

  lemma EntriesOver(adj: AdjacencyLists, u: set<Name>)
    requires adj.Keys <= u
    ensures Sum(u, Lengths(adj)) == Entries(adj)
  {
    SumSupport(adj.Keys, u, Lengths(adj));
  }

  lemma GivenGapMass(adj: AdjacencyLists, alpha: real, cut: real, p: Ranks, e: Ranks, u: set<Name>)
    requires 0.0 <= alpha && 0.0 <= cut && NonNegative(p) && Below(p, e) && adj.Keys <= u
    ensures Sum(u, Given(adj, alpha, 0.0, e))
         <= Sum(u, Given(adj, alpha, cut, p)) + (Product(alpha, Mass(u, e)) - Product(alpha, Mass(u, p))) + Product(cut, Entries(adj))
  {
    hide *;
    var kept, more := ScaledFn(alpha, AtFn(p)), ScaledFn(alpha, AtFn(e));
    var cuts := ScaledFn(cut, Lengths(adj));
    var left := PlusFn(Given(adj, alpha, 0.0, e), kept);
    var right := PlusFn(PlusFn(Given(adj, alpha, cut, p), more), cuts);
    forall node ensures left(node) <= right(node) {
      GivenGap(adj, alpha, cut, p, e, node);
      GapTerms(adj, alpha, cut, p, e, node);
    }
    SumLe(u, left, right);
    SumPlus(u, Given(adj, alpha, 0.0, e), kept);
    SumPlus(u, PlusFn(Given(adj, alpha, cut, p), more), cuts);
    SumPlus(u, Given(adj, alpha, cut, p), more);
    SumScaled(u, alpha, AtFn(p));
    SumScaled(u, alpha, AtFn(e));
    SumScaled(u, cut, Lengths(adj));
    EntriesOver(adj, u);
    MassIs(u, p);
    MassIs(u, e);
  }

  ghost function ScaledFn(c: real, f: Name -> real): Name -> real {
    x => Product(c, f(x))
  }

  ghost function PlusFn(f: Name -> real, g: Name -> real): Name -> real {
    x => f(x) + g(x)
  }

  lemma SumScaled(u: set<Name>, c: real, f: Name -> real)
    ensures Sum(u, ScaledFn(c, f)) == Product(c, Sum(u, f))
  {
    hide Product;
    SumScale(u, c, f, ScaledFn(c, f));
  }

  lemma SumPlus(u: set<Name>, f: Name -> real, g: Name -> real)
    ensures Sum(u, PlusFn(f, g)) == Sum(u, f) + Sum(u, g)
  {
    SumAdd(u, f, g, PlusFn(f, g));
  }

  lemma GapTerms(adj: AdjacencyLists, alpha: real, cut: real, p: Ranks, e: Ranks, node: Name)
    ensures PlusFn(Given(adj, alpha, 0.0, e), ScaledFn(alpha, AtFn(p)))(node)
         == Given(adj, alpha, 0.0, e)(node) + Product(alpha, At(p, node))
    ensures PlusFn(PlusFn(Given(adj, alpha, cut, p), ScaledFn(alpha, AtFn(e))), ScaledFn(cut, Lengths(adj)))(node)
         == Given(adj, alpha, cut, p)(node) + Product(alpha, At(e, node)) + Product(cut, Lengths(adj)(node))
  {
    hide Product;
    hide Given;
    hide Lengths;
  }

  lemma BoundStep(alpha: real, gap: real, entries: real, cut: real, geo: real)
    requires 0.0 <= alpha && gap <= Product(Product(cut, entries), geo)
    ensures Product(alpha, gap) + Product(cut, entries) <= Product(Product(cut, entries), 1.0 + Product(alpha, geo))
  {
    var k := Product(cut, entries);
    assert Product(alpha, gap) <= alpha * (k * geo);
    assert alpha * (k * geo) + k == k * (1.0 + alpha * geo);
  }

  lemma ProductMinus(a: real, b: real, c: real)
    ensures Product(a, b) - Product(a, c) == Product(a, b - c)
  {}

  /** After `n` steps pruning has cost at most the cut, for each entry, summed geometrically. */
  lemma {:induction false} PruningError(adj: AdjacencyLists, teleport: Ranks, alpha: real, cut: real, n: nat)
    requires 0.0 <= alpha <= 1.0 && 0.0 <= cut && NonNegative(teleport)
    ensures var u := Universe(adj, teleport);
      Mass(u, Walk(adj, teleport, alpha, 0.0, n)) - Mass(u, Walk(adj, teleport, alpha, cut, n))
        <= Product(Product(cut, Entries(adj)), Geometric(alpha, n))
  {
    hide *;
    var u := Universe(adj, teleport);
    if n == 0 {
      WalkSteps(adj, teleport, alpha, cut, 0);
      WalkSteps(adj, teleport, alpha, 0.0, 0);
      GeometricIs(alpha, 0);
      Distribute(Product(cut, Entries(adj)), 0.0, 0.0);
    } else {
      var p, e := Walk(adj, teleport, alpha, cut, n - 1), Walk(adj, teleport, alpha, 0.0, n - 1);
      PruningError(adj, teleport, alpha, cut, n - 1);
      PrunedBelowExact(adj, teleport, alpha, cut, n - 1);
      WalkSteps(adj, teleport, alpha, cut, n - 1);
      WalkSteps(adj, teleport, alpha, 0.0, n - 1);
      WalkInUniverse(adj, teleport, alpha, cut, n - 1);
      WalkInUniverse(adj, teleport, alpha, 0.0, n - 1);
      StepMass(adj, teleport, alpha, cut, p);
      StepMass(adj, teleport, alpha, 0.0, e);
      UniverseHoldsKeys(adj, teleport);
      GivenGapMass(adj, alpha, cut, p, e, u);
      ProductMinus(alpha, Mass(u, e), Mass(u, p));
      BoundStep(alpha, Mass(u, e) - Mass(u, p), Entries(adj), cut, Geometric(alpha, n - 1));
      GeometricIs(alpha, n);
    }
  }

  lemma GeometricIs(alpha: real, n: nat)
    ensures Geometric(alpha, n) == if n == 0 then 0.0 else 1.0 + Product(alpha, Geometric(alpha, n - 1))
  {}

  lemma UniverseHoldsKeys(adj: AdjacencyLists, teleport: Ranks)
    ensures adj.Keys <= Universe(adj, teleport) && teleport.Keys <= Universe(adj, teleport)
  {}

  // ---- mass never grows

  lemma GivenAtMost(adj: AdjacencyLists, alpha: real, cut: real, rank: Ranks, u: set<Name>)
    requires 0.0 <= alpha && NonNegative(rank)
    ensures Sum(u, Given(adj, alpha, cut, rank)) <= Product(alpha, Mass(u, rank))
  {
    hide Product;
    hide Pushes;
    forall node ensures Given(adj, alpha, cut, rank)(node) <= ScaledFn(alpha, AtFn(rank))(node) {
      ProductOrder(alpha, alpha, At(rank, node));
    }
    SumLe(u, Given(adj, alpha, cut, rank), ScaledFn(alpha, AtFn(rank)));
    SumScaled(u, alpha, AtFn(rank));
  }

  lemma MixAtMost(alpha: real, mass: real, most: real)
    requires 0.0 <= alpha && mass <= most
    ensures Product(alpha, mass) + Product(1.0 - alpha, most) <= most
  {
    assert Product(alpha, most - mass) >= 0.0;
    assert Product(alpha, mass) == Product(alpha, most) - Product(alpha, most - mass);
  }

  /** No step adds mass: the walk never holds more than the seeds. */
  lemma {:induction false} MassNeverGrows(adj: AdjacencyLists, teleport: Ranks, alpha: real, cut: real, n: nat)
    requires 0.0 <= alpha <= 1.0 && 0.0 <= cut && NonNegative(teleport)
    ensures Mass(Universe(adj, teleport), Walk(adj, teleport, alpha, cut, n)) <= Mass(Universe(adj, teleport), teleport)
  {
    hide *;
    var u := Universe(adj, teleport);
    if n == 0 {
      WalkSteps(adj, teleport, alpha, cut, 0);
    } else {
      var rank := Walk(adj, teleport, alpha, cut, n - 1);
      MassNeverGrows(adj, teleport, alpha, cut, n - 1);
      PrunedBelowExact(adj, teleport, alpha, cut, n - 1);
      WalkSteps(adj, teleport, alpha, cut, n - 1);
      WalkInUniverse(adj, teleport, alpha, cut, n - 1);
      StepMass(adj, teleport, alpha, cut, rank);
      GivenAtMost(adj, alpha, cut, rank, u);
      MixAtMost(alpha, Mass(u, rank), Mass(u, teleport));
    }
  }

  lemma TeleportAt(seeds: Ranks, x: Name)
    requires SeedTotal(seeds) != 0.0
    ensures At(Teleport(seeds), x) == Product(1.0 / SeedTotal(seeds), At(seeds, x))
  {}

  lemma TeleportKeys(seeds: Ranks)
    ensures Teleport(seeds).Keys == seeds.Keys
  {}

  lemma InverseTimes(a: real)
    requires a != 0.0
    ensures Product(1.0 / a, a) == 1.0
  {}

  /** Seeds that weigh something are scaled to mass one. */
  lemma TeleportMass(seeds: Ranks)
    requires SeedTotal(seeds) != 0.0
    ensures Sum(seeds.Keys, AtFn(Teleport(seeds))) == 1.0
  {
    hide Teleport;
    hide Product;
    hide SeedTotal;
    var scaled := ScaledFn(1.0 / SeedTotal(seeds), AtFn(seeds));
    forall x ensures AtFn(Teleport(seeds))(x) == scaled(x) { TeleportAt(seeds, x); }
    SumEq(seeds.Keys, AtFn(Teleport(seeds)), scaled);
    SumScaled(seeds.Keys, 1.0 / SeedTotal(seeds), AtFn(seeds));
    SeedTotalIs(seeds);
    InverseTimes(SeedTotal(seeds));
  }

  lemma SeedTotalIs(seeds: Ranks)
    ensures SeedTotal(seeds) == Sum(seeds.Keys, AtFn(seeds))
  {}

  /** From non-negative seeds the walk holds at most one unit of mass, all of it non-negative. */
  lemma RankMass(adj: AdjacencyLists, seeds: Ranks, alpha: real, cut: real, n: nat)
    requires 0.0 <= alpha <= 1.0 && 0.0 <= cut && NonNegative(seeds)
    ensures NonNegative(Walk(adj, Teleport(seeds), alpha, cut, n))
    ensures Mass(Universe(adj, Teleport(seeds)), Walk(adj, Teleport(seeds), alpha, cut, n)) <= 1.0
  {
    hide *;
    var teleport := Teleport(seeds);
    var u := Universe(adj, teleport);
    TeleportNonNegative(seeds);
    PrunedBelowExact(adj, teleport, alpha, cut, n);
    MassNeverGrows(adj, teleport, alpha, cut, n);
    UniverseHoldsKeys(adj, teleport);
    TeleportAtMostOne(seeds, u);
  }

  lemma TeleportNonNegative(seeds: Ranks)
    requires NonNegative(seeds)
    ensures NonNegative(Teleport(seeds))
  {
    hide Product;
    hide SeedTotal;
    SeedTotalIs(seeds);
    SumNonNegative(seeds.Keys, AtFn(seeds));
    forall x ensures At(Teleport(seeds), x) >= 0.0 {
      assert At(seeds, x) >= 0.0;
      if SeedTotal(seeds) != 0.0 && x in seeds { DivideOrder(0.0, At(seeds, x), SeedTotal(seeds)); }
    }
  }

  lemma TeleportAtMostOne(seeds: Ranks, u: set<Name>)
    requires NonNegative(seeds) && Teleport(seeds).Keys <= u
    ensures Mass(u, Teleport(seeds)) <= 1.0
  {
    hide SeedTotal;
    hide Product;
    TeleportKeys(seeds);
    SumSupport(seeds.Keys, u, AtFn(Teleport(seeds)));
    if SeedTotal(seeds) != 0.0 {
      TeleportMass(seeds);
    } else {
      SeedTotalIs(seeds);
      forall x | x in seeds.Keys ensures AtFn(Teleport(seeds))(x) == 0.0 {
        forall y ensures AtFn(seeds)(y) >= 0.0 { assert At(seeds, y) >= 0.0; }
        SumTermLe(seeds.Keys, AtFn(seeds), x);
      }
      SumZero(seeds.Keys, AtFn(Teleport(seeds)));
    }
  }
}
