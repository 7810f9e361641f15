/** What packages/retrieval/src/chunk.ts promises of its passages. */
module Passages {
  // Nothing is lost or reordered, no passage is too long, no arrangement of the
  // same paragraphs needs fewer passages, and a wrapped paragraph is covered
  // exactly.

  import opened Text
  import opened Chunking

  // ---- arrangements of the paragraphs into items

  function ParagraphsOf(item: Item): seq<string> {
    match item
    case Packed(ps) => ps
    case Wrapped(p) => [p]
  }

  function Flatten(items: seq<Item>): seq<string> {
    if |items| == 0 then [] else ParagraphsOf(items[0]) + Flatten(items[1..])
  }

  /** A group that fits, or a paragraph too long for any group. */
  predicate Allowed(item: Item, maxChars: nat) {
    match item
    case Packed(ps) => |ps| > 0 && Fits(ps, maxChars)
    case Wrapped(p) => |p| > maxChars
  }

  /** Some way, in the given order, of making passages of these paragraphs. */
  ghost predicate Arrangement(items: seq<Item>, ps: seq<string>, maxChars: nat) {
    Flatten(items) == ps && forall k :: 0 <= k < |items| ==> Allowed(items[k], maxChars)
  }

  /** How many passages an item is rendered as. */
  function Weight(item: Item, maxChars: nat, overlap: nat): nat {
    match item
    case Packed(_) => 1
    case Wrapped(p) => |Starts(|p|, 0, maxChars, overlap)|
  }

  function PassageCount(items: seq<Item>, maxChars: nat, overlap: nat): nat {
    if |items| == 0 then 0 else Weight(items[0], maxChars, overlap) + PassageCount(items[1..], maxChars, overlap)
  }

  lemma {:induction false} PassageCountAppend(items: seq<Item>, item: Item, maxChars: nat, overlap: nat)
    ensures PassageCount(items + [item], maxChars, overlap) == PassageCount(items, maxChars, overlap) + Weight(item, maxChars, overlap)
  {
    if |items| == 0 {
      assert [item][1..] == [];
    } else {
      PassageCountAppend(items[1..], item, maxChars, overlap);
      assert (items + [item])[1..] == items[1..] + [item];
    }
  }

  lemma RenderedOne(item: Item, maxChars: nat, overlap: nat)
    ensures |Render(item, maxChars, overlap)| == Weight(item, maxChars, overlap)
  {
    hide Starts;
  }

  lemma RenderedLast(items: seq<Item>, maxChars: nat, overlap: nat)
    requires |items| > 0
    ensures |RenderAll(items, maxChars, overlap)|
         == |RenderAll(items[..|items| - 1], maxChars, overlap)| + |Render(items[|items| - 1], maxChars, overlap)|
  {
    hide Render;
  }

  lemma {:induction false} RenderedCount(items: seq<Item>, maxChars: nat, overlap: nat)
    ensures |RenderAll(items, maxChars, overlap)| == PassageCount(items, maxChars, overlap)
  {
    hide Render, Weight;
    if |items| > 0 {
      var n := |items| - 1;
      RenderedCount(items[..n], maxChars, overlap);
      PassageCountAppend(items[..n], items[n], maxChars, overlap);
      RenderedOne(items[n], maxChars, overlap);
      RenderedLast(items, maxChars, overlap);
      assert items[..n] + [items[n]] == items;
    }
  }

  // ---- what fits

  lemma {:induction false} PrefixShorter(ps: seq<string>, t: nat)
    requires t <= |ps|
    ensures JoinedLength(ps[..t]) <= JoinedLength(ps)
    decreases |ps| - t
  {
    if t < |ps| {
      PrefixShorter(ps, t + 1);
      assert ps[..t + 1][..t] == ps[..t];
    } else {
      assert ps[..t] == ps;
    }
  }

  lemma {:induction false} SuffixShorter(ps: seq<string>, d: nat)
    requires d < |ps|
    ensures JoinedLength(ps[d..]) <= JoinedLength(ps)
  {
    var n := |ps| - 1;
    if d < n {
      SuffixShorter(ps[..n], d);
      assert ps[d..][..|ps[d..]| - 1] == ps[..n][d..];
    } else {
      assert ps[d..] == [ps[n]];
    }
  }

  lemma {:induction false} MemberShorter(ps: seq<string>, i: nat)
    requires i < |ps|
    ensures |ps[i]| <= JoinedLength(ps)
  {
    SuffixShorter(ps, i);
    PrefixShorter(ps[i..], 1);
    assert ps[i..][..1] == [ps[i]];
  }

  /** The greedy passage reaches at least as far as any group that fits. */
  lemma {:induction false} GreedyIsMost(ps: seq<string>, taken: nat, m: nat, maxChars: nat)
    requires taken <= m <= |ps| && Fits(ps[..m], maxChars)
    ensures Greedy(ps, taken, maxChars) >= m
    decreases m - taken
  {
    if taken < m {
      MemberShorter(ps[..m], taken);
      PrefixShorter(ps[..m], taken + 1);
      assert ps[..m][..taken + 1] == ps[..taken + 1];
      GreedyIsMost(ps, taken + 1, m, maxChars);
    }
  }

  lemma {:induction false} GreedyFits(ps: seq<string>, taken: nat, maxChars: nat)
    requires taken <= |ps| && Fits(ps[..taken], maxChars)
    ensures Fits(ps[..Greedy(ps, taken, maxChars)], maxChars)
    decreases |ps| - taken
  {
    if taken < |ps| && |ps[taken]| <= maxChars && Fits(ps[..taken + 1], maxChars) {
      GreedyFits(ps, taken + 1, maxChars);
    }
  }

  /** The plan is an arrangement: every paragraph, once, in order, in a place it may have. */
  lemma {:induction false} PlanIsArrangement(ps: seq<string>, maxChars: nat)
    ensures Arrangement(Plan(ps, maxChars), ps, maxChars)
    decreases |ps|
  {
    if |ps| > 0 {
      if |ps[0]| > maxChars {
        PlanIsArrangement(ps[1..], maxChars);
        assert [ps[0]] + ps[1..] == ps;
        ArrangementMore(Wrapped(ps[0]), Plan(ps[1..], maxChars), ps[1..], maxChars);
      } else {
        var n := Greedy(ps, 1, maxChars);
        PlanIsArrangement(ps[n..], maxChars);
        assert ps[..1] == [ps[0]];
        GreedyFits(ps, 1, maxChars);
        assert ps[..n] + ps[n..] == ps;
        ArrangementMore(Packed(ps[..n]), Plan(ps[n..], maxChars), ps[n..], maxChars);
      }
    }
  }

  lemma ArrangementMore(item: Item, items: seq<Item>, ps: seq<string>, maxChars: nat)
    requires Allowed(item, maxChars) && Arrangement(items, ps, maxChars)
    ensures Arrangement([item] + items, ParagraphsOf(item) + ps, maxChars)
  {
    assert ([item] + items)[1..] == items;
  }

  lemma ArrangementRest(items: seq<Item>, ps: seq<string>, maxChars: nat)
    requires |items| > 0 && Arrangement(items, ps, maxChars)
    ensures Arrangement(items[1..], Flatten(items[1..]), maxChars)
    ensures ps == ParagraphsOf(items[0]) + Flatten(items[1..])
  {}

  /** Whatever is left of an arrangement from any paragraph on, the plan of it needs no more passages. */
  lemma {:induction false} PlanStaysAhead(items: seq<Item>, ps: seq<string>, d: nat, maxChars: nat, overlap: nat)
    requires d <= |ps| && Arrangement(items, ps, maxChars)
    ensures PassageCount(Plan(ps[d..], maxChars), maxChars, overlap) <= PassageCount(items, maxChars, overlap)
    decreases |items|
  {
    hide Plan, Greedy, Fits, Starts, Arrangement;
    if |items| == 0 {
      EmptyArrangement(ps, maxChars);
      EmptyPlan(ps[d..], maxChars);
    } else {
      ArrangementRest(items, ps, maxChars);
      var head := ParagraphsOf(items[0]);
      var rest := Flatten(items[1..]);
      if d >= |head| {
        assert ps[d..] == rest[d - |head|..];
        PlanStaysAhead(items[1..], rest, d - |head|, maxChars, overlap);
      } else {
        AllowedFirst(items, ps, maxChars);
        PlanFirst(items[0], rest, d, maxChars);
        var n := FirstTaken(items[0], rest, d, maxChars);
        assert ps[d..] == head[d..] + rest;
        PlanStaysAhead(items[1..], rest, n, maxChars, overlap);
        var first := Plan(ps[d..], maxChars)[0];
        assert ([first] + Plan(rest[n..], maxChars))[1..] == Plan(rest[n..], maxChars);
      }
    }
  }

  lemma AllowedFirst(items: seq<Item>, ps: seq<string>, maxChars: nat)
    requires |items| > 0 && Arrangement(items, ps, maxChars)
    ensures Allowed(items[0], maxChars)
  {}

  lemma EmptyArrangement(ps: seq<string>, maxChars: nat)
    requires Arrangement([], ps, maxChars)
    ensures ps == []
  {}

  lemma EmptyPlan(ps: seq<string>, maxChars: nat)
    requires ps == []
    ensures Plan(ps, maxChars) == []
  {}

  /** How far into the paragraphs after the first item of an arrangement the plan's first item reaches. */
  ghost function FirstTaken(item: Item, rest: seq<string>, d: nat, maxChars: nat): nat
    requires d < |ParagraphsOf(item)| && Allowed(item, maxChars)
  {
    match item
    case Packed(ps) =>
      var n := Greedy(ps[d..] + rest, 1, maxChars);
      if n >= |ps| - d then n - (|ps| - d) else 0
    case Wrapped(_) => 0
  }

  /** Where an arrangement's first item is cut, the plan of what follows goes at least to that item's end. */
  lemma PlanFirst(item: Item, rest: seq<string>, d: nat, maxChars: nat)
    requires d < |ParagraphsOf(item)| && Allowed(item, maxChars)
    ensures FirstTaken(item, rest, d, maxChars) <= |rest|
    ensures Plan(ParagraphsOf(item)[d..] + rest, maxChars) != []
    ensures var first := Plan(ParagraphsOf(item)[d..] + rest, maxChars)[0];
            Plan(ParagraphsOf(item)[d..] + rest, maxChars) == [first] + Plan(rest[FirstTaken(item, rest, d, maxChars)..], maxChars)
            && (item.Packed? ==> first.Packed?) && (item.Wrapped? ==> first == item)
  {
    var qs := ParagraphsOf(item)[d..] + rest;
    match item {
      case Wrapped(p) =>
        assert qs[0] == p && qs[1..] == rest && rest[0..] == rest;
      case Packed(ps) =>
        var m := |ps| - d;
        assert qs[..m] == ps[d..];
        SuffixShorter(ps, d);
        MemberShorter(ps[d..], 0);
        assert qs[0] == ps[d..][0];
        GreedyIsMost(qs, 1, m, maxChars);
        var n := Greedy(qs, 1, maxChars);
        assert qs[n..] == rest[n - m..];
    }
  }

  /**
    No arrangement of the paragraphs, in their order, into groups that fit and
    long paragraphs on their own comes out as fewer passages than the splitter's.
   */
  lemma FewestPassages(items: seq<Item>, ps: seq<string>, maxChars: nat, overlap: nat)
    requires Arrangement(items, ps, maxChars)
    ensures |RenderAll(Plan(ps, maxChars), maxChars, overlap)| <= |RenderAll(items, maxChars, overlap)|
  {
    hide *;
    PlanStaysAhead(items, ps, 0, maxChars, overlap);
    assert ps[0..] == ps;
    RenderedCount(items, maxChars, overlap);
    RenderedCount(Plan(ps, maxChars), maxChars, overlap);
  }

  // ---- the length of a passage

  lemma {:induction false} TrimLeftShorter(s: string)
    ensures |TrimLeft(s)| <= |s|
  {
    if s != "" && IsSpace(s[0]) { TrimLeftShorter(s[1..]); }
  }

  lemma {:induction false} TrimRightShorter(s: string)
    ensures |TrimRight(s)| <= |s|
  {
    if s != "" && IsSpace(s[|s| - 1]) { TrimRightShorter(s[..|s| - 1]); }
  }

  lemma WindowShort(p: string, i: nat, maxChars: nat)
    ensures |Trim(Slice(p, i, maxChars))| <= maxChars
  {
    hide TrimLeft, TrimRight;
    TrimLeftShorter(Slice(p, i, maxChars));
    TrimRightShorter(TrimLeft(Slice(p, i, maxChars)));
  }

  lemma RenderedShort(item: Item, maxChars: nat, overlap: nat)
    requires Allowed(item, maxChars)
    ensures forall k :: 0 <= k < |Render(item, maxChars, overlap)| ==> |Render(item, maxChars, overlap)[k]| <= maxChars
  {
    hide Trim, Slice, Joined, JoinedLength, Starts;
    match item {
      case Packed(ps) => JoinedLengthIs(ps);
      case Wrapped(p) =>
        var starts := Starts(|p|, 0, maxChars, overlap);
        forall k | 0 <= k < |starts| ensures |Windows(p, starts, maxChars)[k]| <= maxChars {
          WindowShort(p, starts[k], maxChars);
        }
    }
  }

  lemma {:induction false} AllRenderedShort(items: seq<Item>, maxChars: nat, overlap: nat)
    requires forall k :: 0 <= k < |items| ==> Allowed(items[k], maxChars)
    ensures forall k :: 0 <= k < |RenderAll(items, maxChars, overlap)| ==> |RenderAll(items, maxChars, overlap)[k]| <= maxChars
  {
    hide Render, Allowed;
    if |items| > 0 {
      AllRenderedShort(items[..|items| - 1], maxChars, overlap);
      RenderedShort(items[|items| - 1], maxChars, overlap);
    }
  }

  /** No passage is longer than the limit. */
  lemma NoPassageTooLong(ps: seq<string>, maxChars: nat, overlap: nat)
    ensures forall k :: 0 <= k < |RenderAll(Plan(ps, maxChars), maxChars, overlap)| ==>
      |RenderAll(Plan(ps, maxChars), maxChars, overlap)[k]| <= maxChars
  {
    hide RenderAll, Plan, Allowed;
    PlanIsArrangement(ps, maxChars);
    AllRenderedShort(Plan(ps, maxChars), maxChars, overlap);
  }

  // ---- the windows of a long paragraph

  /** The windows before trimming. */
  function Slices(p: string, starts: seq<nat>, maxChars: nat): (r: seq<string>)
    ensures |r| == |starts|
  {
    if |starts| == 0 then [] else [Slice(p, starts[0], maxChars)] + Slices(p, starts[1..], maxChars)
  }

  /** Puts overlapping windows together: all but the last give up their last `overlap` characters. */
  function Stitch(ws: seq<string>, overlap: nat): string {
    if |ws| == 0 then ""
    else if |ws| == 1 then ws[0]
    else (if |ws[0]| >= overlap then ws[0][..|ws[0]| - overlap] else "") + Stitch(ws[1..], overlap)
  }

  lemma StitchStep(w: string, ws: seq<string>, overlap: nat)
    requires |ws| > 0 && |w| >= overlap
    ensures Stitch([w] + ws, overlap) == w[..|w| - overlap] + Stitch(ws, overlap)
  {
    assert ([w] + ws)[1..] == ws;
  }

  lemma SlicesStep(p: string, i: nat, starts: seq<nat>, maxChars: nat)
    ensures Slices(p, [i] + starts, maxChars) == [Slice(p, i, maxChars)] + Slices(p, starts, maxChars)
  {
    assert ([i] + starts)[1..] == starts;
  }

  lemma LastWindow(p: string, i: nat, maxChars: nat, overlap: nat)
    requires overlap < maxChars && i < |p| <= i + maxChars
    ensures Starts(|p|, i, maxChars, overlap) == [i]
    ensures Stitch(Slices(p, [i], maxChars), overlap) == p[i..]
  {
    assert [i][1..] == [];
    assert Slices(p, [i], maxChars) == [Slice(p, i, maxChars)] + Slices(p, [], maxChars);
    assert Slice(p, i, maxChars) == p[i..];
    assert Slices(p, [i], maxChars) == [p[i..]];
  }

  lemma {:induction false} StitchFrom(p: string, i: nat, maxChars: nat, overlap: nat)
    requires overlap < maxChars && i < |p|
    ensures Starts(|p|, i, maxChars, overlap) != []
    ensures Stitch(Slices(p, Starts(|p|, i, maxChars, overlap), maxChars), overlap) == p[i..]
    decreases |p| - i
  {
    hide Stitch, Slices;
    if i + maxChars >= |p| {
      LastWindow(p, i, maxChars, overlap);
    } else {
      var next := i + (maxChars - overlap);
      StitchFrom(p, next, maxChars, overlap);
      var starts := Starts(|p|, next, maxChars, overlap);
      assert Starts(|p|, i, maxChars, overlap) == [i] + starts;
      SlicesStep(p, i, starts, maxChars);
      var w := Slice(p, i, maxChars);
      StitchStep(w, Slices(p, starts, maxChars), overlap);
      assert w == p[i..i + maxChars] && |w| - overlap == next - i;
      assert w[..|w| - overlap] == p[i..next];
      assert p[i..next] + p[next..] == p[i..];
    }
  }

  /** Leaving out every overlap once, the untrimmed windows are the paragraph again. */
  lemma WindowsRebuildTheParagraph(p: string, maxChars: nat, overlap: nat)
    requires overlap < maxChars && p != ""
    ensures Stitch(Slices(p, Starts(|p|, 0, maxChars, overlap), maxChars), overlap) == p
  {
    StitchFrom(p, 0, maxChars, overlap);
    assert p[0..] == p;
  }

  /** Where the loop variable stands after `n` turns. */
  function StartAfter(n: nat, maxChars: nat, overlap: nat): int {
    if n == 0 then 0 else StartAfter(n - 1, maxChars, overlap) + (maxChars - overlap)
  }

  /** Window `k` starts after `k` steps, and there are just enough windows for the last one to reach the end. */
  lemma {:induction false} WindowCount(len: nat, n: nat, maxChars: nat, overlap: nat)
    requires overlap < maxChars && 0 <= StartAfter(n, maxChars, overlap) && StartAfter(n, maxChars, overlap) + overlap < len
    ensures var starts := Starts(len, StartAfter(n, maxChars, overlap), maxChars, overlap);
      && |starts| > 0
      && (forall k :: 0 <= k < |starts| ==> starts[k] == StartAfter(n + k, maxChars, overlap))
      && StartAfter(n + |starts| - 1, maxChars, overlap) + overlap < len <= StartAfter(n + |starts|, maxChars, overlap) + overlap
    decreases len - StartAfter(n, maxChars, overlap)
  {
    var i := StartAfter(n, maxChars, overlap);
    if i + maxChars < len {
      WindowCount(len, n + 1, maxChars, overlap);
      var rest := Starts(len, StartAfter(n + 1, maxChars, overlap), maxChars, overlap);
      var starts := Starts(len, i, maxChars, overlap);
      assert starts == [i as nat] + rest;
      forall k | 0 <= k < |starts| ensures starts[k] == StartAfter(n + k, maxChars, overlap) {
        if k > 0 { assert starts[k] == rest[k - 1] == StartAfter(n + 1 + (k - 1), maxChars, overlap); }
      }
    }
  }

  lemma {:induction false} StartIsProduct(n: nat, maxChars: nat, overlap: nat)
    ensures StartAfter(n, maxChars, overlap) == n * (maxChars - overlap)
  {
    if n > 0 {
      StartIsProduct(n - 1, maxChars, overlap);
      OneMoreStep(n - 1, maxChars - overlap);
    }
  }

  lemma OneMoreStep(n: nat, step: int)
    ensures (n + 1) * step == n * step + step
  {}

  lemma {:induction false} Further(q: nat, more: nat, step: nat)
    requires q < more
    ensures more * step >= q * step + step
    decreases more - q
  {
    OneMoreStep(q, step);
    if q + 1 < more { Further(q + 1, more, step); }
  }

  lemma QuotientIs(n: nat, step: nat, q: nat, r: nat)
    requires n == q * step + r && r < step
    ensures n / step == q
  {
    if n / step > q { Further(q, n / step, step); }
    if n / step < q { Further(n / step, q, step); }
  }

  /** The number of windows is the length less one overlap, divided by the step and rounded up. */
  lemma WindowTotal(len: nat, maxChars: nat, overlap: nat)
    requires overlap < maxChars && overlap < len
    ensures |Starts(len, 0, maxChars, overlap)| == (len - overlap + (maxChars - overlap) - 1) / (maxChars - overlap)
  {
    hide Starts;
    WindowCount(len, 0, maxChars, overlap);
    var step, m := maxChars - overlap, |Starts(len, 0, maxChars, overlap)|;
    StartIsProduct(m - 1, maxChars, overlap);
    StartIsProduct(m, maxChars, overlap);
    QuotientIs(len - overlap + step - 1, step, m, len - overlap + step - 1 - m * step);
  }

  // ---- the whole splitting, read off the paragraphs

  /** The passage at `a` is a group of paragraphs joined by line breaks, to which the next one could not be added. */
  ghost predicate GroupAt(ps: seq<string>, first: nat, next: nat, out: seq<string>, a: nat, b: nat, maxChars: nat) {
    && first < next <= |ps| && b == a + 1 <= |out|
    && out[a] == Join(ps[first..next], '\n') && |out[a]| <= maxChars
    && (next < |ps| ==> |out[a]| + 1 + |ps[next]| > maxChars)
  }

  /** Window `k` of the paragraph, trimmed; the last is the one that reaches the end. */
  ghost predicate WindowAt(p: string, k: nat, step: int, maxChars: nat, last: bool, passage: string) {
    var i := k * step;
    0 <= i < |p| && passage == Trim(p[i..if i + maxChars < |p| then i + maxChars else |p|]) && (last <==> i + maxChars >= |p|)
  }

  ghost predicate AllWindows(p: string, step: int, maxChars: nat, windows: seq<string>) {
    |windows| > 0 && forall k :: 0 <= k < |windows| ==> WindowAt(p, k, step, maxChars, k == |windows| - 1, windows[k])
  }

  /** The passages from `a` to `b` are the windows of one long paragraph, up to the first that reaches its end. */
  ghost predicate WindowsAt(ps: seq<string>, first: nat, next: nat, out: seq<string>, a: nat, b: nat, maxChars: nat, overlap: nat) {
    && first + 1 == next <= |ps| && |ps[first]| > maxChars && a < b <= |out|
    && AllWindows(ps[first], maxChars - overlap, maxChars, out[a..b])
  }

  /** What stands between the `k`-th place and the next. */
  ghost predicate PieceAt(ps: seq<string>, from: seq<nat>, out: seq<string>, at: seq<nat>, k: nat, maxChars: nat, overlap: nat)
    requires k + 1 < |from| == |at|
  {
    || GroupAt(ps, from[k], from[k + 1], out, at[k], at[k + 1], maxChars)
    || WindowsAt(ps, from[k], from[k + 1], out, at[k], at[k + 1], maxChars, overlap)
  }

  /**
    The passages are, one after the other, the windows of a long paragraph or a
    group of paragraphs that is as long as it can be: `from` is where each starts
    among the paragraphs, `at` where among the passages.
   */
  lemma SplittingInFull(ps: seq<string>, maxChars: nat, overlap: nat) returns (from: seq<nat>, at: seq<nat>)
    requires overlap < maxChars || forall i :: 0 <= i < |ps| ==> |ps[i]| <= maxChars
    ensures var out := RenderAll(Plan(ps, maxChars), maxChars, overlap);
      && |from| == |at| > 0 && from[0] == at[0] == 0 && from[|from| - 1] == |ps| && at[|at| - 1] == |out|
      && forall k :: 0 <= k < |from| - 1 ==> PieceAt(ps, from, out, at, k, maxChars, overlap)
  {
    hide *;
    var items := Plan(ps, maxChars);
    var out := RenderAll(items, maxChars, overlap);
    PlanIsArrangement(ps, maxChars);
    ArrangementIs(items, ps, maxChars);
    from := Starting(items);
    at := Laid(items, maxChars, overlap);
    forall k | 0 <= k < |items| ensures PieceAt(ps, from, out, at, k, maxChars, overlap) {
      OnePiece(ps, from, out, at, k, maxChars, overlap);
    }
  }

  lemma OnePiece(ps: seq<string>, from: seq<nat>, out: seq<string>, at: seq<nat>, k: nat, maxChars: nat, overlap: nat)
    requires var items := Plan(ps, maxChars);
      && |from| == |at| == |items| + 1 && from[|items|] == |ps| && k < |items| && Allowed(items[k], maxChars)
      && (forall j :: 0 <= j < |items| ==> Cut(ps, from, j, ParagraphsOf(items[j])))
      && Cut(out, at, k, Render(items[k], maxChars, overlap))
    requires overlap < maxChars || forall i :: 0 <= i < |ps| ==> |ps[i]| <= maxChars
    ensures PieceAt(ps, from, out, at, k, maxChars, overlap)
  {
    hide Plan, Allowed, Render, ParagraphsOf, GroupAt, WindowsAt, Full;
    var items := Plan(ps, maxChars);
    if k + 1 < |items| {
      PlanIsFull(ps, maxChars, k);
      assert Cut(ps, from, k + 1, ParagraphsOf(items[k + 1]));
      assert ps[from[k + 1]..from[k + 2]][0] == ps[from[k + 1]];
    }
    assert Cut(ps, from, k, ParagraphsOf(items[k]));
    OneItem(items[k], ps, from[k], from[k + 1], out, at[k], at[k + 1], maxChars, overlap);
  }

  lemma ArrangementIs(items: seq<Item>, ps: seq<string>, maxChars: nat)
    requires Arrangement(items, ps, maxChars)
    ensures Flatten(items) == ps && forall k :: 0 <= k < |items| ==> Allowed(items[k], maxChars)
  {}

  /** Between the `k`-th place and the next stands this piece. */
  ghost predicate Cut(s: seq<string>, places: seq<nat>, k: nat, piece: seq<string>) {
    k + 1 < |places| && places[k] <= places[k + 1] <= |s| && s[places[k]..places[k + 1]] == piece
  }

  lemma {:induction false} FlattenLast(items: seq<Item>, item: Item)
    ensures Flatten(items + [item]) == Flatten(items) + ParagraphsOf(item)
  {
    if |items| == 0 {
      assert [item][1..] == [] && Flatten([]) == [];
    } else {
      FlattenLast(items[1..], item);
      assert (items + [item])[1..] == items[1..] + [item];
    }
  }

  lemma CutLast(s: seq<string>, places: seq<nat>, more: seq<string>)
    requires |places| > 0 && places[|places| - 1] == |s|
    ensures var all, after := s + more, places + [|s + more|];
      && (forall k: nat, piece :: Cut(s, places, k, piece) ==> Cut(all, after, k, piece))
      && Cut(all, after, |places| - 1, more)
  {
    var all, after := s + more, places + [|s + more|];
    forall k: nat, piece | Cut(s, places, k, piece) ensures Cut(all, after, k, piece) {
      assert all[places[k]..places[k + 1]] == s[places[k]..places[k + 1]];
    }
  }

  /** Where each item starts among the paragraphs. */
  lemma {:induction false} Starting(items: seq<Item>) returns (from: seq<nat>)
    ensures |from| == |items| + 1 && from[0] == 0 && from[|items|] == |Flatten(items)|
    ensures forall k :: 0 <= k < |items| ==> Cut(Flatten(items), from, k, ParagraphsOf(items[k]))
  {
    hide Cut, ParagraphsOf;
    from := [0];
    if |items| > 0 {
      var last := |items| - 1;
      from := Starting(items[..last]);
      FlattenLast(items[..last], items[last]);
      assert items[..last] + [items[last]] == items;
      CutLast(Flatten(items[..last]), from, ParagraphsOf(items[last]));
      from := from + [|Flatten(items)|];
    }
  }

  /** Where each item starts among the passages. */
  lemma {:induction false} Laid(items: seq<Item>, maxChars: nat, overlap: nat) returns (at: seq<nat>)
    ensures |at| == |items| + 1 && at[0] == 0 && at[|items|] == |RenderAll(items, maxChars, overlap)|
    ensures forall k :: 0 <= k < |items| ==> Cut(RenderAll(items, maxChars, overlap), at, k, Render(items[k], maxChars, overlap))
  {
    hide Cut, Render;
    at := [0];
    if |items| > 0 {
      var last := |items| - 1;
      at := Laid(items[..last], maxChars, overlap);
      CutLast(RenderAll(items[..last], maxChars, overlap), at, Render(items[last], maxChars, overlap));
      at := at + [|RenderAll(items, maxChars, overlap)|];
    }
  }

  lemma {:induction false} GreedyStops(ps: seq<string>, taken: nat, maxChars: nat)
    requires taken <= |ps|
    ensures var n := Greedy(ps, taken, maxChars); n < |ps| ==> |ps[n]| > maxChars || !Fits(ps[..n + 1], maxChars)
    decreases |ps| - taken
  {
    if taken < |ps| && |ps[taken]| <= maxChars && Fits(ps[..taken + 1], maxChars) {
      GreedyStops(ps, taken + 1, maxChars);
    }
  }

  /** After a group comes a paragraph that does not fit into it. */
  ghost predicate Full(item: Item, next: string, maxChars: nat) {
    item.Packed? ==> JoinedLength(item.paragraphs) + 1 + |next| > maxChars
  }

  lemma {:induction false} PlanIsFull(ps: seq<string>, maxChars: nat, k: nat)
    requires k + 1 < |Plan(ps, maxChars)|
    ensures var items := Plan(ps, maxChars);
      |ParagraphsOf(items[k + 1])| > 0 && Full(items[k], ParagraphsOf(items[k + 1])[0], maxChars)
    decreases k
  {
    hide Plan, ParagraphsOf, JoinedLength;
    var items := Plan(ps, maxChars);
    NoneOfNone(maxChars);
    PlanHead(ps, maxChars);
    var rest := ps[|ParagraphsOf(items[0])|..];
    assert items[k + 1] == items[1..][k] && (k > 0 ==> items[k] == items[1..][k - 1]);
    if k == 0 {
      NoneOfNone(maxChars);
      PlanHead(rest, maxChars);
    } else {
      PlanIsFull(rest, maxChars, k - 1);
    }
  }

  lemma NoneOfNone(maxChars: nat)
    ensures Plan([], maxChars) == []
  {}

  lemma PlanHead(ps: seq<string>, maxChars: nat)
    requires |ps| > 0
    ensures var items := Plan(ps, maxChars);
      && |items| > 0 && 0 < |ParagraphsOf(items[0])| <= |ps| && ParagraphsOf(items[0])[0] == ps[0]
      && items[1..] == Plan(ps[|ParagraphsOf(items[0])|..], maxChars)
      && (|ParagraphsOf(items[0])| < |ps| ==> Full(items[0], ps[|ParagraphsOf(items[0])|], maxChars))
  {
    hide Greedy, Full;
    if |ps[0]| <= maxChars {
      var n := Greedy(ps, 1, maxChars);
      assert ([Packed(ps[..n])] + Plan(ps[n..], maxChars))[1..] == Plan(ps[n..], maxChars);
      if n < |ps| { GreedyIsFull(ps, maxChars); }
    } else {
      assert ([Wrapped(ps[0])] + Plan(ps[1..], maxChars))[1..] == Plan(ps[1..], maxChars);
      if |ps| > 1 { LongIsFull(ps[0], ps[1], maxChars); }
    }
  }

  lemma LongIsFull(p: string, next: string, maxChars: nat)
    ensures Full(Wrapped(p), next, maxChars)
  {}

  lemma GreedyIsFull(ps: seq<string>, maxChars: nat)
    requires |ps| > 0 && Greedy(ps, 1, maxChars) < |ps|
    ensures Full(Packed(ps[..Greedy(ps, 1, maxChars)]), ps[Greedy(ps, 1, maxChars)], maxChars)
  {
    hide Greedy;
    var n := Greedy(ps, 1, maxChars);
    GreedyStops(ps, 1, maxChars);
    assert ps[..n + 1][..n] == ps[..n];
  }

  lemma {:induction false} JoinedIsJoin(ps: seq<string>)
    ensures Joined(ps) == Join(ps, '\n')
  {
    if |ps| > 1 {
      var last := |ps| - 1;
      JoinedIsJoin(ps[..last]);
      JoinLast(ps[..last], ps[last], '\n');
      assert ps == ps[..last] + [ps[last]];
    }
  }

  lemma {:induction false} JoinLast(ps: seq<string>, p: string, sep: char)
    requires |ps| > 0
    ensures Join(ps + [p], sep) == Join(ps, sep) + [sep] + p
  {
    if |ps| > 1 {
      JoinLast(ps[1..], p, sep);
      assert (ps + [p])[1..] == ps[1..] + [p];
    }
  }

  lemma OneItem(item: Item, ps: seq<string>, first: nat, next: nat, out: seq<string>, a: nat, b: nat, maxChars: nat, overlap: nat)
    requires first <= next <= |ps| && ps[first..next] == ParagraphsOf(item) && Allowed(item, maxChars)
    requires a <= b <= |out| && out[a..b] == Render(item, maxChars, overlap)
    requires overlap < maxChars || forall i :: 0 <= i < |ps| ==> |ps[i]| <= maxChars
    requires next < |ps| ==> Full(item, ps[next], maxChars)
    ensures GroupAt(ps, first, next, out, a, b, maxChars) || WindowsAt(ps, first, next, out, a, b, maxChars, overlap)
  {
    hide Joined, JoinedLength, Trim, Slice, Starts;
    match item {
      case Packed(group) =>
        JoinedIsJoin(group);
        JoinedLengthIs(group);
        assert out[a] == out[a..b][0];
        assert GroupAt(ps, first, next, out, a, b, maxChars);
      case Wrapped(p) =>
        assert p == ps[first..next][0] == ps[first];
        WrappedItem(p, out[a..b], maxChars, overlap);
        assert WindowsAt(ps, first, next, out, a, b, maxChars, overlap);
    }
  }

  lemma WrappedItem(p: string, windows: seq<string>, maxChars: nat, overlap: nat)
    requires overlap < maxChars < |p| && windows == WindowsOf(p, maxChars, overlap)
    ensures AllWindows(p, maxChars - overlap, maxChars, windows)
  {
    hide *;
    var step := maxChars - overlap;
    StartAtNone(maxChars, overlap);
    WindowCount(|p|, 0, maxChars, overlap);
    WindowsAre(p, maxChars, overlap);
    var n := |windows|;
    forall k | 0 <= k < n ensures WindowAt(p, k, step, maxChars, k == n - 1, windows[k]) {
      StartIsProduct(k, maxChars, overlap);
      StartIsProduct(n - 1, maxChars, overlap);
      StartIsProduct(n, maxChars, overlap);
      OneMoreStep(n - 1, step);
      if k < n - 1 { Further(k, n - 1, step); }
      WindowIs(p, k, step, maxChars);
    }
    WindowsAll(p, step, maxChars, windows);
  }

  lemma WindowsAll(p: string, step: int, maxChars: nat, windows: seq<string>)
    requires |windows| > 0 && forall k :: 0 <= k < |windows| ==> WindowAt(p, k, step, maxChars, k == |windows| - 1, windows[k])
    ensures AllWindows(p, step, maxChars, windows)
  {}

  lemma StartAtNone(maxChars: nat, overlap: nat)
    ensures StartAfter(0, maxChars, overlap) == 0
  {}

  lemma WindowsAre(p: string, maxChars: nat, overlap: nat)
    ensures var starts := Starts(|p|, 0, maxChars, overlap);
      && |WindowsOf(p, maxChars, overlap)| == |starts|
      && forall k :: 0 <= k < |starts| ==> WindowsOf(p, maxChars, overlap)[k] == Trim(Slice(p, starts[k], maxChars))
  {
    hide Starts, Trim, Slice;
  }

  lemma WindowIs(p: string, k: nat, step: int, maxChars: nat)
    requires 0 <= k * step < |p|
    ensures WindowAt(p, k, step, maxChars, k * step + maxChars >= |p|, Trim(Slice(p, k * step, maxChars)))
  {
    hide Trim;
    var i := k * step;
    assert p[i..|p|] == p[i..];
  }

  // ---- when the wrapping loop stops

  /** One of the loop's two exits is taken at turn `n`. */
  predicate StopsAt(n: nat, len: nat, maxChars: nat, overlap: nat) {
    StartAfter(n, maxChars, overlap) >= len || StartAfter(n, maxChars, overlap) + maxChars >= len
  }

  /** On a long paragraph the loop stops exactly when the overlap is smaller than the window. */
  lemma WrappingStops(len: nat, maxChars: nat, overlap: nat)
    requires len > maxChars
    ensures (exists n: nat :: StopsAt(n, len, maxChars, overlap)) <==> overlap < maxChars
  {
    hide StartAfter;
    if overlap < maxChars {
      GoesFar(len, maxChars, overlap);
      assert StopsAt(len, len, maxChars, overlap);
    } else {
      forall n: nat ensures !StopsAt(n, len, maxChars, overlap) {
        GoesNowhere(n, maxChars, overlap);
      }
    }
  }

  lemma {:induction false} GoesFar(n: nat, maxChars: nat, overlap: nat)
    requires overlap < maxChars
    ensures StartAfter(n, maxChars, overlap) >= n
  {
    if n > 0 { GoesFar(n - 1, maxChars, overlap); }
  }

  lemma {:induction false} GoesNowhere(n: nat, maxChars: nat, overlap: nat)
    requires overlap >= maxChars
    ensures StartAfter(n, maxChars, overlap) <= 0
  {
    if n > 0 { GoesNowhere(n - 1, maxChars, overlap); }
  }

  /** A paragraph of five characters, windows of two, each overlapping the last by two: the loop stays at the start. */
  lemma WrappingForEver(n: nat)
    ensures StartAfter(n, 2, 2) == 0 && !StopsAt(n, 5, 2, 2)
  {
    StartIsProduct(n, 2, 2);
  }
}
