/**
  `splitDisconnected` of packages/curate/src/communities.ts: the depth-first
  search that cuts a community into connected pieces.
 */
module Splitting {
  import opened Names
  import opened WeightedGraph

  ghost predicate Edge(g: WGraph, a: Name, b: Name) {
    a in g && b in g[a]
  }

  /** A walk from `a` to `b` along edges, all of it inside `s`. */
  ghost predicate IsWalk(g: WGraph, s: set<Name>, p: seq<Name>, a: Name, b: Name) {
    && |p| > 0 && p[0] == a && p[|p| - 1] == b
    && (forall i :: 0 <= i < |p| ==> p[i] in s)
    && (forall i :: 0 <= i < |p| - 1 ==> Edge(g, p[i], p[i + 1]))
  }

  ghost predicate Reach(g: WGraph, s: set<Name>, a: Name, b: Name) {
    exists p :: IsWalk(g, s, p, a, b)
  }

  ghost predicate Connected(g: WGraph, s: set<Name>) {
    forall a, b :: a in s && b in s ==> Reach(g, s, a, b)
  }

  /** No edge leads from `s` to the rest of `inside`. */
  ghost predicate NoWayOut(g: WGraph, inside: set<Name>, s: set<Name>) {
    forall a, b :: a in s && b in inside && Edge(g, a, b) ==> b in s
  }

  lemma EdgeMirrored(g: WGraph, a: Name, b: Name)
    requires WellFormed(g) && Edge(g, a, b)
    ensures Edge(g, b, a)
  {
    assert Mirrored(g, a, b);
  }

  lemma ReachSelf(g: WGraph, s: set<Name>, a: Name)
    requires a in s
    ensures Reach(g, s, a, a)
  {
    assert IsWalk(g, s, [a], a, a);
  }

  lemma ReachGrow(g: WGraph, s: set<Name>, t: set<Name>, a: Name, b: Name)
    requires s <= t && Reach(g, s, a, b)
    ensures Reach(g, t, a, b)
  {
    var p :| IsWalk(g, s, p, a, b);
    assert IsWalk(g, t, p, a, b);
  }

  lemma ReachEdge(g: WGraph, s: set<Name>, a: Name, b: Name, c: Name)
    requires Reach(g, s, a, b) && Edge(g, b, c) && c in s
    ensures Reach(g, s, a, c)
  {
    var p :| IsWalk(g, s, p, a, b);
    assert IsWalk(g, s, p + [c], a, c);
  }

  lemma ReachBack(g: WGraph, s: set<Name>, a: Name, b: Name)
    requires WellFormed(g) && Reach(g, s, a, b)
    ensures Reach(g, s, b, a)
  {
    var p :| IsWalk(g, s, p, a, b);
    var q := seq(|p|, i requires 0 <= i < |p| => p[|p| - 1 - i]);
    forall i | 0 <= i < |q| - 1 ensures Edge(g, q[i], q[i + 1]) {
      assert Edge(g, p[|p| - 2 - i], p[|p| - 2 - i + 1]);
      EdgeMirrored(g, q[i + 1], q[i]);
    }
    assert IsWalk(g, s, q, b, a);
  }

  lemma ReachThrough(g: WGraph, s: set<Name>, a: Name, b: Name, c: Name)
    requires Reach(g, s, a, b) && Reach(g, s, b, c)
    ensures Reach(g, s, a, c)
  {
    var p :| IsWalk(g, s, p, a, b);
    var q :| IsWalk(g, s, q, b, c);
    var r := p + q[1..];
    forall i | 0 <= i < |r| - 1 ensures Edge(g, r[i], r[i + 1]) {
      if i >= |p| - 1 { assert Edge(g, q[i - |p| + 1], q[i - |p| + 2]); }
    }
    assert IsWalk(g, s, r, a, c);
  }

  lemma ConnectedFrom(g: WGraph, s: set<Name>, start: Name)
    requires WellFormed(g)
    requires forall x :: x in s ==> Reach(g, s, start, x)
    ensures Connected(g, s)
  {
    forall a, b | a in s && b in s ensures Reach(g, s, a, b) {
      hide Reach;
      ReachBack(g, s, start, a);
      ReachThrough(g, s, a, start, b);
    }
  }

  // ---- the search

  ghost predicate Distinct(s: seq<Name>) {
    forall i, j :: 0 <= i < j < |s| ==> s[i] != s[j]
  }

  ghost function Elements(s: seq<Name>): set<Name> {
    set x | x in s
  }

  /** Everything found since `before` is in the piece or on the stack, and was reached from `start`. */
  ghost predicate Search(g: WGraph, inside: set<Name>, before: set<Name>, start: Name, part: seq<Name>, stack: seq<Name>, seen: set<Name>) {
    && before <= seen <= inside && start in inside && start !in before
    && Distinct(part + stack)
    && Elements(part + stack) == seen - before
    && start in seen
    && (forall a, b :: a in part && b in inside && Edge(g, a, b) ==> b in seen)
    && (forall x :: x in seen - before ==> Reach(g, seen - before, start, x))
  }

  lemma SearchStart(g: WGraph, inside: set<Name>, before: set<Name>, start: Name)
    requires before <= inside && start in inside && start !in before
    ensures Search(g, inside, before, start, [], [start], before + {start})
  {
    assert before + {start} - before == {start};
    ReachSelf(g, {start}, start);
  }

  /** What pushing the unseen neighbours of `cur` does to the search. */
  ghost predicate Pushed(g: WGraph, inside: set<Name>, cur: Name, seen: set<Name>, pushed: seq<Name>, after: set<Name>) {
    && Distinct(pushed)
    && after == seen + Elements(pushed)
    && forall x :: x in pushed <==> x in inside && x !in seen && Edge(g, cur, x)
  }

  method PushNeighbours(g: WGraph, inside: set<Name>, cur: Name, stack: seq<Name>, seen: set<Name>)
    returns (stack': seq<Name>, seen': set<Name>, ghost pushed: seq<Name>)
    requires cur in g
    ensures stack' == stack + pushed && Pushed(g, inside, cur, seen, pushed, seen')
  {
    var row := g[cur].Keys;
    stack', seen', pushed := stack, seen, [];
    var left := row;
    while left != {}
      invariant left <= row
      invariant stack' == stack + pushed && Distinct(pushed)
      invariant seen' == seen + Elements(pushed)
      invariant forall x :: x in pushed <==> x in inside && x !in seen && x in row && x !in left
      decreases |left|
    {
      var nb :| nb in left;
      left := left - {nb};
      if nb in inside && nb !in seen' {
        seen' := seen' + {nb};
        stack' := stack' + [nb];
        pushed := pushed + [nb];
      }
    }
  }

  lemma StepElements(part: seq<Name>, rest: seq<Name>, cur: Name, pushed: seq<Name>, old_: set<Name>)
    requires Distinct(part + (rest + [cur])) && Distinct(pushed)
    requires Elements(part + (rest + [cur])) == old_
    requires Elements(pushed) !! old_
    ensures Distinct(part + [cur] + (rest + pushed))
    ensures Elements(part + [cur] + (rest + pushed)) == old_ + Elements(pushed)
  {
    var was, now := part + (rest + [cur]), part + [cur] + (rest + pushed);
    forall x ensures x in now <==> x in was || x in pushed {
      assert x in now <==> x in part || x == cur || x in rest || x in pushed;
      assert x in was <==> x in part || x in rest || x == cur;
    }
    forall i, j | 0 <= i < j < |now| ensures now[i] != now[j] {
      PlaceBefore(part, rest, cur, pushed, i);
      PlaceBefore(part, rest, cur, pushed, j);
    }
  }

  /** Where each node of the next state stood before. */
  ghost function Place(part: seq<Name>, rest: seq<Name>, i: nat): nat {
    if i < |part| then i else if i == |part| then |part| + |rest| else i - 1
  }

  lemma PlaceBefore(part: seq<Name>, rest: seq<Name>, cur: Name, pushed: seq<Name>, i: nat)
    requires i < |part| + 1 + |rest| + |pushed|
    ensures var now := part + [cur] + (rest + pushed);
      if i <= |part| + |rest|
      then now[i] == (part + (rest + [cur]))[Place(part, rest, i)] && now[i] in Elements(part + (rest + [cur]))
      else now[i] == pushed[i - |part| - 1 - |rest|] && now[i] in Elements(pushed)
  {
    var was := part + (rest + [cur]);
    if i <= |part| + |rest| { assert was[Place(part, rest, i)] in was; }
  }

  lemma SearchStep(g: WGraph, inside: set<Name>, before: set<Name>, start: Name, part: seq<Name>, rest: seq<Name>, cur: Name,
                   seen: set<Name>, pushed: seq<Name>, after: set<Name>)
    requires Search(g, inside, before, start, part, rest + [cur], seen)
    requires Pushed(g, inside, cur, seen, pushed, after)
    ensures Search(g, inside, before, start, part + [cur], rest + pushed, after)
  {
    var old_, now := seen - before, after - before;
    assert now == old_ + Elements(pushed);
    StepElements(part, rest, cur, pushed, old_);
    assert cur in part + (rest + [cur]);
    assert cur in old_;
    forall x | x in now ensures Reach(g, now, start, x) {
      hide Reach;
      if x in old_ {
        ReachGrow(g, old_, now, start, x);
      } else {
        ReachGrow(g, old_, now, start, cur);
        ReachEdge(g, now, start, cur, x);
      }
    }
    forall a, b | a in part + [cur] && b in inside && Edge(g, a, b) ensures b in after {
      if a == cur && b !in seen { assert b in pushed; }
    }
  }

  /** A finished search found a connected piece with no edge to anything else inside. */
  lemma SearchDone(g: WGraph, inside: set<Name>, before: set<Name>, start: Name, part: seq<Name>, seen: set<Name>)
    requires WellFormed(g) && NoWayOut(g, inside, before)
    requires Search(g, inside, before, start, part, [], seen)
    ensures Distinct(part) && start in part && Elements(part) == seen - before
    ensures Connected(g, Elements(part)) && NoWayOut(g, inside, Elements(part)) && NoWayOut(g, inside, seen)
  {
    assert part + [] == part;
    forall x | x in part ensures x in seen - before { assert x in Elements(part); }
    assert start in Elements(part);
    ConnectedFrom(g, Elements(part), start);
    forall a, b | a in Elements(part) && b in inside && Edge(g, a, b) ensures b in Elements(part) {
      EdgeMirrored(g, a, b);
      assert b !in before;
    }
    forall a, b | a in seen && b in inside && Edge(g, a, b) ensures b in seen {
      if a !in before { assert a in Elements(part); }
    }
  }

  /** The connected piece around `start`. */
  method FindPart(g: WGraph, inside: set<Name>, before: set<Name>, start: Name) returns (part: seq<Name>, seen: set<Name>)
    requires WellFormed(g) && inside <= g.Keys && before <= inside && NoWayOut(g, inside, before)
    requires start in inside && start !in before
    ensures Distinct(part) && start in part && start in seen && Elements(part) == seen - before && before <= seen <= inside
    ensures Connected(g, Elements(part)) && NoWayOut(g, inside, Elements(part)) && NoWayOut(g, inside, seen)
  {
    part := [];
    var stack := [start];
    seen := before + {start};
    SearchStart(g, inside, before, start);
    while |stack| > 0
      invariant before <= seen <= inside && Elements(stack) <= inside
      invariant Search(g, inside, before, start, part, stack, seen)
      decreases |inside - seen|, |stack|
    {
      hide Search;
      hide Pushed;
      var cur := stack[|stack| - 1];
      ghost var rest := stack[..|stack| - 1];
      ghost var was := seen;
      assert stack == rest + [cur] && cur in Elements(stack);
      stack := stack[..|stack| - 1];
      part := part + [cur];
      ghost var pushed;
      stack, seen, pushed := PushNeighbours(g, inside, cur, stack, seen);
      SearchStep(g, inside, before, start, part[..|part| - 1], rest, cur, was, pushed, seen);
      assert part[..|part| - 1] + [cur] == part;
      PushedMeasure(g, inside, cur, was, pushed, seen);
    }
    SearchDone(g, inside, before, start, part, seen);
  }

  lemma PushedMeasure(g: WGraph, inside: set<Name>, cur: Name, seen: set<Name>, pushed: seq<Name>, after: set<Name>)
    requires Pushed(g, inside, cur, seen, pushed, after) && seen <= inside
    ensures seen <= after <= inside && Elements(pushed) <= inside
    ensures pushed == [] ==> after == seen
    ensures pushed != [] ==> |inside - after| < |inside - seen|
  {
    if pushed != [] {
      assert pushed[0] in pushed;
      Fewer(inside - after, inside - seen, pushed[0]);
    }
  }

  lemma Fewer<T>(s: set<T>, t: set<T>, x: T)
    requires s <= t && x in t && x !in s
    ensures |s| < |t|
  {
    assert t == s + (t - s);
    assert x in t - s;
  }

  // ---- all pieces

  ghost predicate Apart(parts: seq<seq<Name>>) {
    forall i, j :: 0 <= i < j < |parts| ==> Elements(parts[i]) !! Elements(parts[j])
  }

  ghost predicate Listed(parts: seq<seq<Name>>, x: Name) {
    exists i :: 0 <= i < |parts| && x in parts[i]
  }

  ghost predicate Covers(parts: seq<seq<Name>>, s: set<Name>) {
    forall x :: x in s <==> Listed(parts, x)
  }

  lemma ListedConcat(parts: seq<seq<Name>>, more: seq<seq<Name>>, x: Name)
    ensures Listed(parts + more, x) <==> Listed(parts, x) || Listed(more, x)
  {
    var all := parts + more;
    if i :| 0 <= i < |parts| && x in parts[i] { assert x in all[i]; }
    if i :| 0 <= i < |more| && x in more[i] { assert x in all[|parts| + i]; }
  }

  /** A piece: connected on its own, with no edge to any other node of `inside`. */
  ghost predicate Piece(g: WGraph, inside: set<Name>, part: seq<Name>) {
    && part != [] && Distinct(part)
    && Connected(g, Elements(part)) && NoWayOut(g, inside, Elements(part))
  }

  /** `parts` cuts `inside` into pieces. */
  ghost predicate IsSplit(g: WGraph, inside: set<Name>, parts: seq<seq<Name>>) {
    && Apart(parts) && Covers(parts, inside)
    && forall i :: 0 <= i < |parts| ==> Piece(g, inside, parts[i])
  }

  /** Two lists of pieces that have nothing in common may be put together. */
  lemma CoversConcat(parts: seq<seq<Name>>, s: set<Name>, more: seq<seq<Name>>, t: set<Name>)
    requires Apart(parts) && Covers(parts, s) && Apart(more) && Covers(more, t) && s !! t
    ensures Apart(parts + more) && Covers(parts + more, s + t)
  {
    var all := parts + more;
    forall x ensures x in s + t <==> Listed(all, x) { ListedConcat(parts, more, x); }
    forall i, j | 0 <= i < j < |all| ensures Elements(all[i]) !! Elements(all[j]) {
      if i < |parts| <= j {
        forall x | x in all[i] ensures x in s { assert x in parts[i] && Listed(parts, x); }
        forall x | x in all[j] ensures x in t { assert x in more[j - |parts|] && Listed(more, x); }
      }
    }
  }

  lemma CoversOne(part: seq<Name>)
    ensures Apart([part]) && Covers([part], Elements(part))
  {
    forall x ensures x in Elements(part) <==> Listed([part], x) {
      if x in part { assert x in [part][0]; }
    }
  }

  /** A community is one connected piece: cuts `members` into its connected pieces. */
  method SplitDisconnected(g: WGraph, members: seq<Name>) returns (parts: seq<seq<Name>>)
    requires WellFormed(g) && Elements(members) <= g.Keys
    ensures IsSplit(g, Elements(members), parts)
  {
    var inside := set x | x in members;
    var seen: set<Name> := {};
    parts := [];
    for i := 0 to |members|
      invariant seen <= inside && NoWayOut(g, inside, seen)
      invariant forall j :: 0 <= j < i ==> members[j] in seen
      invariant Apart(parts) && Covers(parts, seen)
      invariant forall j :: 0 <= j < |parts| ==> Piece(g, inside, parts[j])
    {
      hide NoWayOut;
      hide Apart;
      hide Covers;
      hide Connected;
      hide WellFormed;
      var start := members[i];
      if start !in seen {
        ghost var before := seen;
        var part;
        part, seen := FindPart(g, inside, seen, start);
        CoversOne(part);
        CoversConcat(parts, before, [part], Elements(part));
        assert seen == before + Elements(part);
        parts := parts + [part];
      }
    }
    assert seen == inside;
  }
}
