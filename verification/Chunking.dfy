/**
  `splitParagraphs` of packages/retrieval/src/chunk.ts: short paragraphs are
  packed greedily into passages, a paragraph that is too long becomes
  overlapping windows. Its input here is the list of paragraphs, trimmed and
  not empty, that splitting on blank lines gives.
 */
module Chunking {
  import opened Text

  // ---- packing short paragraphs

  /** The length of the paragraphs joined by single line breaks. */
  function JoinedLength(ps: seq<string>): nat {
    if |ps| == 0 then 0
    else if |ps| == 1 then |ps[0]|
    else JoinedLength(ps[..|ps| - 1]) + 1 + |ps[|ps| - 1]|
  }

  /** The paragraphs joined by single line breaks. */
  function Joined(ps: seq<string>): string {
    if |ps| == 0 then ""
    else if |ps| == 1 then ps[0]
    else Joined(ps[..|ps| - 1]) + "\n" + ps[|ps| - 1]
  }

  lemma {:induction false} JoinedLengthIs(ps: seq<string>)
    ensures |Joined(ps)| == JoinedLength(ps)
  {
    if |ps| > 1 { JoinedLengthIs(ps[..|ps| - 1]); }
  }

  ghost predicate Paragraphs(ps: seq<string>) {
    forall i :: 0 <= i < |ps| ==> ps[i] != "" && Trimmed(ps[i])
  }

  lemma {:induction false} JoinedIsTrimmed(ps: seq<string>)
    requires Paragraphs(ps) && |ps| > 0
    ensures Joined(ps) != "" && Trimmed(Joined(ps)) && Trim(Joined(ps)) == Joined(ps)
  {
    if |ps| > 1 { JoinedIsTrimmed(ps[..|ps| - 1]); }
    TrimTrimmed(Joined(ps));
  }

  predicate Fits(ps: seq<string>, maxChars: nat) {
    JoinedLength(ps) <= maxChars
  }

  /** How many paragraphs the first passage takes: as many as fit, never one that is itself too long. */
  function Greedy(ps: seq<string>, taken: nat, maxChars: nat): (n: nat)
    requires taken <= |ps|
    ensures taken <= n <= |ps|
    decreases |ps| - taken
  {
    if taken < |ps| && |ps[taken]| <= maxChars && Fits(ps[..taken + 1], maxChars)
    then Greedy(ps, taken + 1, maxChars)
    else taken
  }

  datatype Item = Packed(paragraphs: seq<string>) | Wrapped(paragraph: string)

  /** What the splitter makes of the paragraphs: greedy passages, and long paragraphs on their own. */
  function Plan(ps: seq<string>, maxChars: nat): seq<Item>
    decreases |ps|
  {
    if |ps| == 0 then []
    else if |ps[0]| > maxChars then [Wrapped(ps[0])] + Plan(ps[1..], maxChars)
    else
      var n := Greedy(ps, 1, maxChars);
      [Packed(ps[..n])] + Plan(ps[n..], maxChars)
  }

  // ---- windows over a long paragraph

  function Slice(p: string, i: nat, maxChars: nat): string {
    if i >= |p| then "" else if i + maxChars < |p| then p[i..i + maxChars] else p[i..]
  }

  /** The starts of the windows, from `i` on; none where the loop would not end. */
  function Starts(len: nat, i: nat, maxChars: nat, overlap: nat): seq<nat>
    decreases len - i
  {
    if i >= len || overlap >= maxChars then []
    else if i + maxChars >= len then [i]
    else [i] + Starts(len, i + (maxChars - overlap), maxChars, overlap)
  }

  function Windows(p: string, starts: seq<nat>, maxChars: nat): (r: seq<string>)
    ensures |r| == |starts|
    ensures forall k :: 0 <= k < |starts| ==> r[k] == Trim(Slice(p, starts[k], maxChars))
  {
    seq(|starts|, k requires 0 <= k < |starts| => Trim(Slice(p, starts[k], maxChars)))
  }

  function WindowsOf(p: string, maxChars: nat, overlap: nat): seq<string> {
    Windows(p, Starts(|p|, 0, maxChars, overlap), maxChars)
  }

  function Render(item: Item, maxChars: nat, overlap: nat): seq<string> {
    match item
    case Packed(ps) => [Joined(ps)]
    case Wrapped(p) => WindowsOf(p, maxChars, overlap)
  }

  function RenderAll(items: seq<Item>, maxChars: nat, overlap: nat): seq<string> {
    if |items| == 0 then [] else RenderAll(items[..|items| - 1], maxChars, overlap) + Render(items[|items| - 1], maxChars, overlap)
  }

  lemma RenderMore(items: seq<Item>, item: Item, maxChars: nat, overlap: nat)
    ensures RenderAll(items + [item], maxChars, overlap) == RenderAll(items, maxChars, overlap) + Render(item, maxChars, overlap)
  {
    assert (items + [item])[..|items|] == items;
  }

  // ---- the computation

  /** Hard-wraps one long paragraph. */
  method HardWrap(p: string, maxChars: nat, overlap: nat) returns (out: seq<string>)
    requires overlap < maxChars && |p| > maxChars
    ensures out == WindowsOf(p, maxChars, overlap)
  {
    out := [];
    ghost var starts: seq<nat> := [];
    var i := 0;
    while i < |p|
      invariant starts + Starts(|p|, i, maxChars, overlap) == Starts(|p|, 0, maxChars, overlap)
      invariant out == Windows(p, starts, maxChars)
      decreases |p| - i
    {
      hide Slice;
      hide Trim;
      out := out + [Trim(Slice(p, i, maxChars))];
      assert starts + [i] + Starts(|p|, i + (maxChars - overlap), maxChars, overlap) == starts + ([i] + Starts(|p|, i + (maxChars - overlap), maxChars, overlap));
      starts := starts + [i];
      if i + maxChars >= |p| { break; }
      i := i + (maxChars - overlap);
    }
    assert starts == Starts(|p|, 0, maxChars, overlap);
  }

  /** `current` holds `ps[start..i]`, what came before is in `items`, and the plan goes on from `start`. */
  ghost predicate Progress(ps: seq<string>, maxChars: nat, items: seq<Item>, start: nat, i: nat, current: string) {
    && start <= i <= |ps|
    && Plan(ps, maxChars) == items + Plan(ps[start..], maxChars)
    && current == Joined(ps[start..i])
    && (i > start ==> |ps[start]| <= maxChars && Greedy(ps[start..], i - start, maxChars) == Greedy(ps[start..], 1, maxChars))
  }

  lemma PlanStart(ps: seq<string>, maxChars: nat)
    ensures Progress(ps, maxChars, [], 0, 0, "")
  {
    assert ps[0..] == ps && [] + Plan(ps, maxChars) == Plan(ps, maxChars);
  }

  /** Flushing where the greedy passage ends. */
  lemma PlanFlush(ps: seq<string>, maxChars: nat, items: seq<Item>, start: nat, i: nat, current: string)
    requires Progress(ps, maxChars, items, start, i, current) && i > start
    requires i == |ps| || |ps[i]| > maxChars || !Fits(ps[start..i + 1], maxChars)
    ensures Progress(ps, maxChars, items + [Packed(ps[start..i])], i, i, "")
  {
    var rest := ps[start..];
    assert rest[..i - start] == ps[start..i];
    assert i < |ps| ==> rest[i - start] == ps[i] && rest[..i - start + 1] == ps[start..i + 1];
    assert Greedy(rest, i - start, maxChars) == i - start;
    assert rest[i - start..] == ps[i..];
    assert items + ([Packed(ps[start..i])] + Plan(ps[i..], maxChars)) == items + [Packed(ps[start..i])] + Plan(ps[i..], maxChars);
  }

  /** A long paragraph stands on its own. */
  lemma PlanLong(ps: seq<string>, maxChars: nat, items: seq<Item>, i: nat)
    requires i < |ps| && Progress(ps, maxChars, items, i, i, "") && |ps[i]| > maxChars
    ensures Progress(ps, maxChars, items + [Wrapped(ps[i])], i + 1, i + 1, "")
  {
    assert ps[i..][0] == ps[i] && ps[i..][1..] == ps[i + 1..];
    assert items + ([Wrapped(ps[i])] + Plan(ps[i + 1..], maxChars)) == items + [Wrapped(ps[i])] + Plan(ps[i + 1..], maxChars);
  }

  /** A short paragraph that still fits joins the passage. */
  lemma PlanAdd(ps: seq<string>, maxChars: nat, items: seq<Item>, start: nat, i: nat, current: string)
    requires i < |ps| && Progress(ps, maxChars, items, start, i, current) && |ps[i]| <= maxChars
    requires i > start ==> Fits(ps[start..i + 1], maxChars)
    ensures Progress(ps, maxChars, items, start, i + 1, if i > start then current + "\n" + ps[i] else ps[i])
  {
    var rest := ps[start..];
    assert ps[start..i + 1][..i - start] == ps[start..i];
    if i > start {
      assert rest[i - start] == ps[i] && rest[..i - start + 1] == ps[start..i + 1];
    }
  }

  lemma CurrentEmpty(ps: seq<string>, start: nat, i: nat)
    requires start <= i <= |ps| && Paragraphs(ps)
    ensures Joined(ps[start..i]) == "" <==> i == start
    ensures Trim(Joined(ps[start..i])) == Joined(ps[start..i])
  {
    if i > start { JoinedIsTrimmed(ps[start..i]); }
  }

  lemma CurrentLength(ps: seq<string>, start: nat, i: nat)
    requires start < i < |ps|
    ensures JoinedLength(ps[start..i + 1]) == |Joined(ps[start..i])| + 1 + |ps[i]|
  {
    assert ps[start..i + 1][..i - start] == ps[start..i];
    JoinedLengthIs(ps[start..i]);
  }

  /** The passages of the plan, in order. */
  method SplitParagraphs(ps: seq<string>, maxChars: nat, overlap: nat) returns (out: seq<string>)
    requires overlap < maxChars || forall i :: 0 <= i < |ps| ==> |ps[i]| <= maxChars
    requires Paragraphs(ps)
    ensures out == RenderAll(Plan(ps, maxChars), maxChars, overlap)
  {
    hide Joined;
    hide JoinedLength;
    hide Plan;
    hide Greedy;
    hide RenderAll;
    hide WindowsOf;
    hide Trim;
    hide Progress;
    out := [];
    var current := "";
    ghost var items: seq<Item> := [];
    ghost var start := 0;
    PlanStart(ps, maxChars);
    NothingRendered(maxChars, overlap);
    for i := 0 to |ps|
      invariant start <= i && current == Joined(ps[start..i])
      invariant Progress(ps, maxChars, items, start, i, current)
      invariant out == RenderAll(items, maxChars, overlap)
    {
      var p := ps[i];
      CurrentEmpty(ps, start, i);
      if i > start { CurrentLength(ps, start, i); }
      if |p| > maxChars || (current != "" && |current| + |p| + 1 > maxChars) {
        if current != "" {
          PlanFlush(ps, maxChars, items, start, i, current);
          RenderMore(items, Packed(ps[start..i]), maxChars, overlap);
          out := out + [Trim(current)];
          items := items + [Packed(ps[start..i])];
          start := i;
        }
        current := "";
        CurrentEmpty(ps, i, i);
      }
      if |p| > maxChars {
        PlanLong(ps, maxChars, items, i);
        RenderMore(items, Wrapped(p), maxChars, overlap);
        var windows := HardWrap(p, maxChars, overlap);
        out := out + windows;
        items := items + [Wrapped(p)];
        start := i + 1;
        CurrentEmpty(ps, i + 1, i + 1);
      } else {
        PlanAdd(ps, maxChars, items, start, i, current);
        current := if current != "" then current + "\n" + p else p;
        ProgressIs(ps, maxChars, items, start, i + 1, current);
      }
    }
    CurrentEmpty(ps, start, |ps|);
    if current != "" {
      PlanFlush(ps, maxChars, items, start, |ps|, current);
      RenderMore(items, Packed(ps[start..]), maxChars, overlap);
      assert ps[start..|ps|] == ps[start..];
      out := out + [Trim(current)];
      items := items + [Packed(ps[start..])];
    }
    PlanEnd(ps, maxChars, items);
  }

  lemma NothingRendered(maxChars: nat, overlap: nat)
    ensures RenderAll([], maxChars, overlap) == [] && Joined([]) == ""
  {}

  lemma ProgressIs(ps: seq<string>, maxChars: nat, items: seq<Item>, start: nat, i: nat, current: string)
    requires Progress(ps, maxChars, items, start, i, current)
    ensures start <= i <= |ps| && current == Joined(ps[start..i])
  {}

  lemma PlanEnd(ps: seq<string>, maxChars: nat, items: seq<Item>)
    requires Progress(ps, maxChars, items, |ps|, |ps|, "")
    ensures Plan(ps, maxChars) == items
  {
    assert ps[|ps|..] == [];
    assert items + [] == items;
  }
}
