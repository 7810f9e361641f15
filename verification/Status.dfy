/** packages/retrieval/src/status.ts */
module Status {
  // Demoting notes by status: the wrapper asks the inner ranker for more than it
  // needs, demotes, sorts again and cuts.

  import opened Vault

  datatype Hit = Hit(name: string, score: real, status: string)

  datatype Demotion = Demotion(status: string, weight: real)

  type Weights = map<string, real>

  type Demotions = map<string, Demotion>

  /** `quarantine` and `deprecated` count half, `archived` a quarter. */
  const DEFAULT_WEIGHTS: Weights := map["quarantine" := 0.5, "deprecated" := 0.5, "archived" := 0.25]

  predicate Demotes(weights: Weights, n: Note) {
    n.frontmatter.status != "" && n.frontmatter.status in weights && weights[n.frontmatter.status] < 1.0
  }

  /** The demotions of a list of notes; of two demoted notes with one name, the last decides. */
  function DemotionsOf(notes: seq<Note>, weights: Weights): Demotions {
    if |notes| == 0 then map[]
    else
      var init, n := DemotionsOf(notes[..|notes| - 1], weights), notes[|notes| - 1];
      if Demotes(weights, n) then init[NoteName(n) := Demotion(n.frontmatter.status, weights[n.frontmatter.status])] else init
  }

  function Demote(demoted: Demotions, h: Hit): Hit {
    if h.name in demoted
    then Hit(h.name, h.score * demoted[h.name].weight, demoted[h.name].status)
    else h
  }

  function DemoteAll(demoted: Demotions, hits: seq<Hit>): (r: seq<Hit>)
    ensures |r| == |hits|
    ensures forall i :: 0 <= i < |hits| ==> r[i] == Demote(demoted, hits[i])
  {
    seq(|hits|, i requires 0 <= i < |hits| => Demote(demoted, hits[i]))
  }

  // ---- the sort

  /** Puts a hit after every hit that scores at least as much. */
  function InsertLate(s: seq<Hit>, h: Hit): seq<Hit> {
    if |s| == 0 then [h]
    else if s[0].score >= h.score then [s[0]] + InsertLate(s[1..], h)
    else [h] + s
  }

  /** A stable sort by falling score. */
  function Sort(hits: seq<Hit>): seq<Hit> {
    if |hits| == 0 then [] else InsertLate(Sort(hits[..|hits| - 1]), hits[|hits| - 1])
  }

  ghost predicate Falling(s: seq<Hit>) {
    forall i, j :: 0 <= i < j < |s| ==> s[i].score >= s[j].score
  }

  /** The hits of one score, in order. */
  function OfScore(s: seq<Hit>, v: real): seq<Hit> {
    if |s| == 0 then [] else (if s[0].score == v then [s[0]] else []) + OfScore(s[1..], v)
  }

  lemma {:induction false} InsertLateFalling(s: seq<Hit>, h: Hit)
    requires Falling(s)
    ensures Falling(InsertLate(s, h)) && |InsertLate(s, h)| == |s| + 1
    ensures forall x :: x in InsertLate(s, h) <==> x in s || x == h
  {
    if |s| > 0 {
      if s[0].score >= h.score {
        InsertLateFalling(s[1..], h);
        var r := InsertLate(s[1..], h);
        forall j | 0 <= j < |r| ensures s[0].score >= r[j].score {
          assert r[j] in r;
        }
        assert forall x :: x in s <==> x == s[0] || x in s[1..];
      } else {
        assert forall x :: x in [h] + s <==> x == h || x in s;
      }
    }
  }

  lemma {:induction false} OfScoreConcat(a: seq<Hit>, b: seq<Hit>, v: real)
    ensures OfScore(a + b, v) == OfScore(a, v) + OfScore(b, v)
  {
    if |a| == 0 {
      assert a + b == b;
    } else {
      assert (a + b)[0] == a[0] && (a + b)[1..] == a[1..] + b;
      OfScoreConcat(a[1..], b, v);
      var first := if a[0].score == v then [a[0]] else [];
      assert OfScore(a + b, v) == first + OfScore(a[1..] + b, v);
      assert first + (OfScore(a[1..], v) + OfScore(b, v)) == first + OfScore(a[1..], v) + OfScore(b, v);
    }
  }

  lemma {:induction false} NoneOfScore(s: seq<Hit>, v: real)
    requires forall i :: 0 <= i < |s| ==> s[i].score != v
    ensures OfScore(s, v) == []
  {
    if |s| > 0 { NoneOfScore(s[1..], v); }
  }

  /** Inserting late keeps hits of one score in the order they came. */
  lemma {:induction false} InsertLateStable(s: seq<Hit>, h: Hit, v: real)
    requires Falling(s)
    ensures OfScore(InsertLate(s, h), v) == OfScore(s, v) + (if h.score == v then [h] else [])
  {
    if |s| > 0 && s[0].score >= h.score {
      InsertLateStable(s[1..], h, v);
      var r := InsertLate(s, h);
      assert r[0] == s[0] && r[1..] == InsertLate(s[1..], h);
    } else if |s| > 0 {
      assert ([h] + s)[1..] == s;
      if h.score == v { NoneOfScore(s, v); }
    }
  }

  /** The sort is what a stable sort has to be: falling, and each score's hits in their old order. */
  lemma {:induction false} SortIsStable(hits: seq<Hit>, v: real)
    ensures Falling(Sort(hits)) && |Sort(hits)| == |hits|
    ensures OfScore(Sort(hits), v) == OfScore(hits, v)
  {
    if |hits| > 0 {
      var init, h := hits[..|hits| - 1], hits[|hits| - 1];
      SortIsStable(init, v);
      InsertLateFalling(Sort(init), h);
      InsertLateStable(Sort(init), h, v);
      OfScoreConcat(init, [h], v);
      assert hits == init + [h];
    }
  }

  // ---- the search

  function Depth(k: nat): nat {
    var wanted := if 3 * k > 20 then 3 * k else 20;
    if wanted < 100 then wanted else 100
  }

  function Take(s: seq<Hit>, k: nat): seq<Hit> {
    if k < |s| then s[..k] else s
  }

  /** The inner ranker, known by its whole ranking: a search returns a prefix of it. */
  function Search(demoted: Demotions, full: seq<Hit>, k: nat): seq<Hit> {
    if demoted == map[] then Take(full, k)
    else Take(Sort(DemoteAll(demoted, Take(full, Depth(k)))), k)
  }

  /** `lowered` are the hits fetched, each as its notes leave it, and `order` is where each hit of the answer came from. */
  method StatusAware(notes: seq<Note>, weights: Weights, full: seq<Hit>, k: nat)
    returns (out: seq<Hit>, ghost lowered: seq<Hit>, ghost order: seq<nat>)
    ensures out == Search(DemotionsOf(notes, weights), full, k)
    ensures !SomeLower(notes, weights) ==> out == if k < |full| then full[..k] else full
    ensures SomeLower(notes, weights) ==>
      && |lowered| == Least(|full|, if 3 * k <= 20 then 20 else if 3 * k >= 100 then 100 else 3 * k)
      && (forall i :: 0 <= i < |lowered| ==> LowersTo(notes, weights, full[i], lowered[i]))
      && |out| == Least(k, |lowered|) && |order| == |lowered|
      && (forall i :: 0 <= i < |order| ==> order[i] < |lowered| && (i < |out| ==> out[i] == lowered[order[i]]))
      && (forall i, j :: 0 <= i < j < |order| ==> Before(lowered, order[i], order[j]))
  {
    hide NoteName;
    hide Sort;
    hide Before;
    hide LowersTo;
    hide SomeLower;
    lowered, order := [], [];
    var demoted: Demotions := map[];
    for i := 0 to |notes|
      invariant demoted == DemotionsOf(notes[..i], weights)
    {
      assert notes[..i + 1][..i] == notes[..i];
      var n := notes[i];
      if Demotes(weights, n) {
        demoted := demoted[NoteName(n) := Demotion(n.frontmatter.status, weights[n.frontmatter.status])];
      }
    }
    assert notes[..|notes|] == notes;
    SomeDemoted(notes, weights);
    if demoted == map[] {
      out := Take(full, k);
      return;
    }
    var hits := Take(full, Depth(k));
    lowered := DemoteAll(demoted, hits);
    forall i | 0 <= i < |hits| ensures LowersTo(notes, weights, full[i], Demote(demoted, hits[i])) {
      DemoteIs(notes, weights, full[i]);
    }
    order := SortOrder(lowered);
    out := Take(Sort(DemoteAll(demoted, hits)), k);
  }

  // ---- the same, read off the notes

  function Least(a: nat, b: nat): nat {
    if a < b then a else b
  }

  /** The note at `j` lowers the hits of its name, and no later one does. */
  ghost predicate LastToLower(notes: seq<Note>, weights: Weights, name: string, j: int) {
    && 0 <= j < |notes| && Lowers(notes[j], weights, name)
    && forall l :: j < l < |notes| ==> !Lowers(notes[l], weights, name)
  }

  /** The note has the name, and a status that weighs less than one. */
  ghost predicate Lowers(n: Note, weights: Weights, name: string) {
    NoteName(n) == name && n.frontmatter.status != "" && n.frontmatter.status in weights && weights[n.frontmatter.status] < 1.0
  }

  ghost predicate SomeLower(notes: seq<Note>, weights: Weights) {
    exists n :: n in notes && Lowers(n, weights, NoteName(n))
  }

  /** What becomes of a hit: the weight and the status of the last note that lowers it, or nothing. */
  ghost predicate LowersTo(notes: seq<Note>, weights: Weights, h: Hit, r: Hit) {
    && (forall j :: LastToLower(notes, weights, h.name, j) ==>
          r == Hit(h.name, h.score * weights[notes[j].frontmatter.status], notes[j].frontmatter.status))
    && ((forall n :: n in notes ==> !Lowers(n, weights, h.name)) ==> r == h)
  }

  /** The hit at `i` goes before the one at `j`: by its score, or by its place where they score the same. */
  ghost predicate Before(hits: seq<Hit>, i: nat, j: nat) {
    i < |hits| && j < |hits| && (hits[i].score > hits[j].score || (hits[i].score == hits[j].score && i < j))
  }

  /** A name is demoted exactly by the last note that lowers it. */
  lemma {:induction false} DemotedByLast(notes: seq<Note>, weights: Weights, name: string)
    ensures name in DemotionsOf(notes, weights) <==> exists n :: n in notes && Lowers(n, weights, name)
    ensures forall j :: LastToLower(notes, weights, name, j) ==>
      && name in DemotionsOf(notes, weights)
      && DemotionsOf(notes, weights)[name] == Demotion(notes[j].frontmatter.status, weights[notes[j].frontmatter.status])
  {
    hide NoteName;
    hide Lowers;
    if |notes| > 0 {
      var last := |notes| - 1;
      var init, n := notes[..last], notes[last];
      DemotedByLast(init, weights, name);
      assert forall x :: x in notes <==> x in init || x == n;
      LastDemotes(notes, weights, name);
      forall j | LastToLower(notes, weights, name, j) && j != last ensures LastToLower(init, weights, name, j) && !Lowers(n, weights, name) {
        LastBefore(notes, weights, name, j);
      }
    }
  }

  lemma LastDemotes(notes: seq<Note>, weights: Weights, name: string)
    requires |notes| > 0
    ensures var n := notes[|notes| - 1];
      Lowers(n, weights, name) ==>
        && name in DemotionsOf(notes, weights)
        && DemotionsOf(notes, weights)[name] == Demotion(n.frontmatter.status, weights[n.frontmatter.status])
    ensures var init := DemotionsOf(notes[..|notes| - 1], weights);
      !Lowers(notes[|notes| - 1], weights, name) ==>
        && (name in DemotionsOf(notes, weights) <==> name in init)
        && (name in init ==> DemotionsOf(notes, weights)[name] == init[name])
  {
    hide NoteName;
  }

  lemma LastBefore(notes: seq<Note>, weights: Weights, name: string, j: int)
    requires LastToLower(notes, weights, name, j) && j != |notes| - 1
    ensures LastToLower(notes[..|notes| - 1], weights, name, j) && !Lowers(notes[|notes| - 1], weights, name)
  {
    hide Lowers;
  }

  lemma SomeDemoted(notes: seq<Note>, weights: Weights)
    ensures DemotionsOf(notes, weights) == map[] <==> !SomeLower(notes, weights)
  {
    hide DemotionsOf;
    hide NoteName;
    forall name ensures name in DemotionsOf(notes, weights) <==> exists n :: n in notes && Lowers(n, weights, name) {
      DemotedByLast(notes, weights, name);
    }
    if n :| n in notes && Lowers(n, weights, NoteName(n)) { assert NoteName(n) in DemotionsOf(notes, weights); }
    if DemotionsOf(notes, weights) != map[] {
      var name :| name in DemotionsOf(notes, weights);
    }
  }

  lemma DemoteIs(notes: seq<Note>, weights: Weights, h: Hit)
    ensures LowersTo(notes, weights, h, Demote(DemotionsOf(notes, weights), h))
  {
    hide DemotionsOf;
    hide Lowers;
    DemotedByLast(notes, weights, h.name);
  }

  lemma {:induction false} InsertLateAt(s: seq<Hit>, h: Hit) returns (p: nat)
    ensures p <= |s| && InsertLate(s, h) == s[..p] + [h] + s[p..]
    ensures forall i :: 0 <= i < p ==> s[i].score >= h.score
    ensures p < |s| ==> s[p].score < h.score
  {
    p := 0;
    if |s| > 0 && s[0].score >= h.score {
      var q := InsertLateAt(s[1..], h);
      p := q + 1;
      assert s[..p] == [s[0]] + s[1..][..q] && s[p..] == s[1..][q..];
    }
  }

  /** Where each hit of the sorted list came from. */
  lemma {:induction false} SortOrder(hits: seq<Hit>) returns (order: seq<nat>)
    ensures |order| == |hits| == |Sort(hits)|
    ensures forall i :: 0 <= i < |order| ==> order[i] < |hits| && Sort(hits)[i] == hits[order[i]]
    ensures forall i, j :: 0 <= i < j < |order| ==> Before(hits, order[i], order[j])
  {
    order := [];
    if |hits| > 0 {
      var last := |hits| - 1;
      var init, h := hits[..last], hits[last];
      var o := SortOrder(init);
      var p := InsertLateAt(Sort(init), h);
      SortIsStable(init, 0.0);
      order := o[..p] + [last] + o[p..];
      OrderGrows(init, h, o, Sort(init), p);
      assert init + [h] == hits;
    }
  }

  lemma OrderGrows(init: seq<Hit>, h: Hit, o: seq<nat>, s: seq<Hit>, p: nat)
    requires |o| == |init| == |s| && p <= |s| && Falling(s)
    requires forall i :: 0 <= i < |o| ==> o[i] < |init| && s[i] == init[o[i]]
    requires forall i, j :: 0 <= i < j < |o| ==> Before(init, o[i], o[j])
    requires (forall i :: 0 <= i < p ==> s[i].score >= h.score) && (p < |s| ==> s[p].score < h.score)
    ensures var order, all := o[..p] + [|init|] + o[p..], init + [h];
      && (forall i :: 0 <= i < |order| ==> order[i] < |all| && (s[..p] + [h] + s[p..])[i] == all[order[i]])
      && forall i, j :: 0 <= i < j < |order| ==> Before(all, order[i], order[j])
  {
    var order, all := o[..p] + [|init|] + o[p..], init + [h];
    forall i, j | 0 <= i < j < |order| ensures Before(all, order[i], order[j]) {
      var a, b := if i < p then i else i - 1, if j < p then j else j - 1;
      if i != p { assert order[i] == o[a] && s[a] == init[o[a]] == all[o[a]]; }
      if j != p { assert order[j] == o[b] && s[b] == init[o[b]] == all[o[b]]; }
      if i == p { assert s[p].score >= s[b].score; }
      if i != p && j != p { assert Before(init, o[a], o[b]); }
    }
  }

  /** By default quarantined and deprecated notes count half, archived ones a quarter, and no others are lowered. */
  lemma ByDefault(n: Note)
    ensures Lowers(n, DEFAULT_WEIGHTS, NoteName(n)) <==> n.frontmatter.status in {"quarantine", "deprecated", "archived"}
    ensures Lowers(n, DEFAULT_WEIGHTS, NoteName(n)) ==>
      DEFAULT_WEIGHTS[n.frontmatter.status] == if n.frontmatter.status == "archived" then 0.25 else 0.5
  {
    hide NoteName;
    var status := n.frontmatter.status;
    assert status in DEFAULT_WEIGHTS <==> status in {"quarantine", "deprecated", "archived"};
  }

  /** The ranking nobody cuts: every hit demoted, then sorted. */
  function WholeRanking(demoted: Demotions, full: seq<Hit>): seq<Hit> {
    Sort(DemoteAll(demoted, full))
  }

  // ---- how much of it is exact

  ghost predicate GoodRanking(full: seq<Hit>) {
    Falling(full) && forall i :: 0 <= i < |full| ==> full[i].score >= 0.0
  }

  /** Every demotion lowers. */
  ghost predicate Lowering(demoted: Demotions) {
    forall name :: name in demoted ==> demoted[name].weight < 1.0
  }

  lemma {:induction false} DemotionsLower(notes: seq<Note>, weights: Weights)
    ensures Lowering(DemotionsOf(notes, weights))
  {
    hide NoteName;
    if |notes| > 0 { DemotionsLower(notes[..|notes| - 1], weights); }
  }

  lemma DemoteLowers(demoted: Demotions, h: Hit)
    requires Lowering(demoted) && h.score >= 0.0
    ensures Demote(demoted, h).score <= h.score
  {
    if h.name in demoted {
      var score, weight := h.score, demoted[h.name].weight;
      Shrink(score, weight);
      assert Demote(demoted, h).score == score * weight;
    }
  }

  lemma Shrink(score: real, weight: real)
    requires score >= 0.0 && weight < 1.0
    ensures score * weight <= score
  {
    var rest := 1.0 - weight;
    NonNegativeProduct(score, rest);
    assert score * rest == score - score * weight;
  }

  lemma NonNegativeProduct(a: real, b: real)
    requires a >= 0.0 && b >= 0.0
    ensures a * b >= 0.0
  {}

  lemma {:induction false} InsertLateKeeps(s: seq<Hit>, h: Hit, i: nat)
    requires Falling(s) && i < |s| && s[i].score >= h.score
    ensures i < |InsertLate(s, h)| && InsertLate(s, h)[i] == s[i]
  {
    if i > 0 { InsertLateKeeps(s[1..], h, i - 1); }
  }

  /** Hits that score at most `t` cannot move a hit that scores at least `t`. */
  lemma {:induction false} LateHitsKeep(a: seq<Hit>, b: seq<Hit>, t: real, i: nat)
    requires i < |Sort(a)| && Sort(a)[i].score >= t
    requires forall j :: 0 <= j < |b| ==> b[j].score <= t
    ensures i < |Sort(a + b)| && Sort(a + b)[i] == Sort(a)[i]
    decreases |b|
  {
    if |b| == 0 {
      assert a + b == a;
    } else {
      var init, h := b[..|b| - 1], b[|b| - 1];
      LateHitsKeep(a, init, t, i);
      SortIsStable(a + init, t);
      assert (a + b)[..|a + b| - 1] == a + init && (a + b)[|a + b| - 1] == h;
      InsertLateKeeps(Sort(a + init), h, i);
    }
  }

  lemma DemoteSplit(demoted: Demotions, full: seq<Hit>, d: nat)
    requires d <= |full|
    ensures DemoteAll(demoted, full) == DemoteAll(demoted, full[..d]) + DemoteAll(demoted, full[d..])
  {
    hide Demote;
  }

  /**
    A returned hit that still scores at least as much as the last hit fetched is
    in its exact place: the same hit stands there in the uncut ranking.
   */
  lemma ExactPlace(demoted: Demotions, full: seq<Hit>, k: nat, i: nat)
    requires demoted != map[] && Lowering(demoted) && GoodRanking(full)
    requires Depth(k) < |full| && i < |Search(demoted, full, k)|
    requires Search(demoted, full, k)[i].score >= full[Depth(k) - 1].score
    ensures i < |WholeRanking(demoted, full)| && WholeRanking(demoted, full)[i] == Search(demoted, full, k)[i]
  {
    hide Sort;
    hide Demote;
    var d, t := Depth(k), full[Depth(k) - 1].score;
    var b := DemoteAll(demoted, full[d..]);
    forall j | 0 <= j < |b| ensures b[j].score <= t {
      DemoteLowers(demoted, full[d..][j]);
      assert full[d..][j] == full[d + j];
    }
    DemoteSplit(demoted, full, d);
    LateHitsKeep(DemoteAll(demoted, full[..d]), b, t, i);
  }

  /** When the inner ranker has no more than was fetched, the answer is the exact top of the whole ranking. */
  lemma ExhaustedIsExact(demoted: Demotions, full: seq<Hit>, k: nat)
    requires demoted != map[] && |full| <= Depth(k)
    ensures Search(demoted, full, k) == Take(WholeRanking(demoted, full), k)
  {}

  function CountAbove(s: seq<Hit>, t: real): nat {
    if |s| == 0 then 0 else CountAbove(s[..|s| - 1], t) + if s[|s| - 1].score >= t then 1 else 0
  }

  lemma {:induction false} CountAboveCons(h: Hit, s: seq<Hit>, t: real)
    ensures CountAbove([h] + s, t) == CountAbove(s, t) + if h.score >= t then 1 else 0
  {
    if |s| == 0 {
      assert [h] + s == [h];
      assert CountAbove([h][..0], t) == 0;
    } else {
      CountAboveCons(h, s[..|s| - 1], t);
      assert ([h] + s)[..|s|] == [h] + s[..|s| - 1];
    }
  }

  lemma {:induction false} CountAboveInsert(s: seq<Hit>, h: Hit, t: real)
    ensures CountAbove(InsertLate(s, h), t) == CountAbove(s, t) + if h.score >= t then 1 else 0
  {
    if |s| == 0 {
      CountAboveCons(h, s, t);
      assert [h] + s == [h];
    } else if s[0].score >= h.score {
      CountAboveInsert(s[1..], h, t);
      CountAboveCons(s[0], s[1..], t);
      CountAboveCons(s[0], InsertLate(s[1..], h), t);
      assert [s[0]] + s[1..] == s;
    } else {
      CountAboveCons(h, s, t);
    }
  }

  lemma {:induction false} CountAboveSort(s: seq<Hit>, t: real)
    ensures CountAbove(Sort(s), t) == CountAbove(s, t)
  {
    if |s| > 0 {
      CountAboveSort(s[..|s| - 1], t);
      CountAboveInsert(Sort(s[..|s| - 1]), s[|s| - 1], t);
    }
  }

  /** In a falling list the hits above `t` come first. */
  lemma {:induction false} AboveComeFirst(s: seq<Hit>, t: real, i: nat)
    requires Falling(s) && i < CountAbove(s, t)
    ensures i < |s| && s[i].score >= t
  {
    if |s| > 0 {
      var init := s[..|s| - 1];
      if s[|s| - 1].score >= t {
        CountAtMost(init, t);
        assert i < |s| ==> s[i].score >= t;
      } else {
        AboveComeFirst(init, t, i);
      }
    }
  }

  lemma {:induction false} CountAtMost(s: seq<Hit>, t: real)
    ensures CountAbove(s, t) <= |s|
  {
    if |s| > 0 { CountAtMost(s[..|s| - 1], t); }
  }

  /** How many of the hits are not demoted. */
  function Plain(demoted: Demotions, hits: seq<Hit>): nat {
    if |hits| == 0 then 0
    else Plain(demoted, hits[..|hits| - 1]) + if hits[|hits| - 1].name in demoted then 0 else 1
  }

  lemma {:induction false} PlainStayAbove(demoted: Demotions, hits: seq<Hit>, t: real)
    requires forall i :: 0 <= i < |hits| ==> hits[i].score >= t
    ensures CountAbove(DemoteAll(demoted, hits), t) >= Plain(demoted, hits)
  {
    if |hits| > 0 {
      PlainStayAbove(demoted, hits[..|hits| - 1], t);
      var all := DemoteAll(demoted, hits);
      assert all[..|all| - 1] == DemoteAll(demoted, hits[..|hits| - 1]);
    }
  }

  /** When `k` of the fetched hits are not demoted, the answer is the exact top `k` of the whole ranking. */
  lemma EnoughPlainIsExact(demoted: Demotions, full: seq<Hit>, k: nat)
    requires demoted != map[] && Lowering(demoted) && GoodRanking(full)
    requires Plain(demoted, Take(full, Depth(k))) >= k
    ensures Search(demoted, full, k) == Take(WholeRanking(demoted, full), k)
  {
    hide Sort;
    hide Demote;
    if Depth(k) < |full| {
      var d, t := Depth(k), full[Depth(k) - 1].score;
      var fetched := DemoteAll(demoted, full[..d]);
      PlainStayAbove(demoted, full[..d], t);
      CountAboveSort(fetched, t);
      SortIsStable(fetched, t);
      CountAtMost(fetched, t);
      SortIsStable(DemoteAll(demoted, full), t);
      forall i | 0 <= i < k ensures i < |Sort(fetched)| && Sort(fetched)[i].score >= t {
        AboveComeFirst(Sort(fetched), t, i);
      }
      forall i | 0 <= i < k
        ensures i < |WholeRanking(demoted, full)| && WholeRanking(demoted, full)[i] == Search(demoted, full, k)[i]
      {
        ExactPlace(demoted, full, k, i);
      }
    } else {
      ExhaustedIsExact(demoted, full, k);
    }
  }

  /** With anything demoted, no search returns more than a hundred hits, whatever was asked for. */
  lemma NeverMoreThanAHundred(demoted: Demotions, full: seq<Hit>, k: nat)
    requires demoted != map[]
    ensures |Search(demoted, full, k)| <= 100
  {
    SortIsStable(DemoteAll(demoted, Take(full, Depth(k))), 0.0);
  }

  /** With anything demoted, a search returns as many hits as were asked for and exist exactly when one of the two is at most a hundred. */
  lemma AsManyAsAskedFor(demoted: Demotions, full: seq<Hit>, k: nat)
    requires demoted != map[]
    ensures |Search(demoted, full, k)| == |Take(full, k)| <==> k <= 100 || |full| <= 100
  {
    SortIsStable(DemoteAll(demoted, Take(full, Depth(k))), 0.0);
  }

  /** A ranking of as many notes, "n", "nn", and so on. */
  function Alike(many: nat): seq<Hit> {
    seq(many, i requires i >= 0 => Hit(seq(i + 1, _ => 'n'), 1.0, ""))
  }

  /** A hundred and one hits, one of them archived, and all of them asked for: a hundred come back. */
  lemma AskingForAHundredAndOne()
    ensures |Alike(101)| == 101 && |Search(map["n" := Demotion("archived", DEFAULT_WEIGHTS["archived"])], Alike(101), 101)| == 100
  {
    var demoted: Demotions := map["n" := Demotion("archived", DEFAULT_WEIGHTS["archived"])];
    assert "n" in demoted;
    SortIsStable(DemoteAll(demoted, Take(Alike(101), Depth(101))), 0.0);
  }
}
