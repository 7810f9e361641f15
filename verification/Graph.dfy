/**
  packages/core/src/graph.ts: the link graph of a list of notes, and the
  neighbourhood of a note in it.
 */
module Graph {
  import opened Text
  import opened Vault
  import Links

  datatype EdgeKind = Wikilink | Provenance | Supersedes | Contradicts

  datatype Edge = Edge(from: string, to: string, kind: EdgeKind)

  datatype Graph = Graph(nodes: map<string, Note>, edges: seq<Edge>)

  /** A frontmatter reference without its brackets. */
  function Unbracketed(raw: string): string {
    var open := if |raw| >= 2 && raw[..2] == "[[" then raw[2..] else raw;
    var closed := if |open| >= 2 && open[|open| - 2..] == "]]" then open[..|open| - 2] else open;
    Trim(closed)
  }

  /** The edge one link of a note becomes: to the note it resolves to, else to its own text. */
  function LinkEdge(index: Links.LinkIndex, n: Note, t: string): Edge {
    var to := Links.ResolveLink(index, t, n.relPath);
    Edge(NoteName(n), if to.Some? then to.value else t, Wikilink)
  }

  function LinkEdges(index: Links.LinkIndex, n: Note, links: seq<string>): seq<Edge> {
    if |links| == 0 then [] else LinkEdges(index, n, links[..|links| - 1]) + [LinkEdge(index, n, links[|links| - 1])]
  }

  function TypedEdges(n: Note, kind: EdgeKind, targets: seq<string>): seq<Edge> {
    if |targets| == 0 then []
    else TypedEdges(n, kind, targets[..|targets| - 1]) + [Edge(NoteName(n), Unbracketed(targets[|targets| - 1]), kind)]
  }

  function NoteEdges(index: Links.LinkIndex, n: Note): seq<Edge> {
    LinkEdges(index, n, n.links)
      + TypedEdges(n, Provenance, n.frontmatter.provenance)
      + TypedEdges(n, Supersedes, n.frontmatter.supersedes)
      + TypedEdges(n, Contradicts, n.frontmatter.contradicts)
  }

  function AllEdges(index: Links.LinkIndex, notes: seq<Note>): seq<Edge> {
    if |notes| == 0 then [] else AllEdges(index, notes[..|notes| - 1]) + NoteEdges(index, notes[|notes| - 1])
  }

  /** The graph of a list of notes; of two notes with one name, the first is the node. */
  function GraphOf(notes: seq<Note>): Graph {
    Graph(Links.IndexOf(notes).byName, AllEdges(Links.IndexOf(notes), notes))
  }

  // ---- where the edges come from

  lemma {:induction false} LinkEdgeIn(index: Links.LinkIndex, n: Note, links: seq<string>, t: string)
    requires t in links
    ensures LinkEdge(index, n, t) in LinkEdges(index, n, links)
  {
    hide Links.ResolveLink;
    hide NoteName;
    var last := links[|links| - 1];
    if t != last {
      assert t in links[..|links| - 1];
      LinkEdgeIn(index, n, links[..|links| - 1], t);
    }
  }

  lemma {:induction false} TypedEdgeIn(n: Note, kind: EdgeKind, targets: seq<string>, t: string)
    requires t in targets
    ensures Edge(NoteName(n), Unbracketed(t), kind) in TypedEdges(n, kind, targets)
  {
    hide Unbracketed;
    hide NoteName;
    var last := targets[|targets| - 1];
    if t != last {
      assert t in targets[..|targets| - 1];
      TypedEdgeIn(n, kind, targets[..|targets| - 1], t);
    }
  }

  lemma {:induction false} NoteEdgeIn(index: Links.LinkIndex, notes: seq<Note>, n: Note, e: Edge)
    requires n in notes && e in NoteEdges(index, n)
    ensures e in AllEdges(index, notes)
  {
    hide NoteEdges;
    var last := notes[|notes| - 1];
    if n != last {
      assert n in notes[..|notes| - 1];
      NoteEdgeIn(index, notes[..|notes| - 1], n, e);
    }
  }

  /** The targets a note's frontmatter gives for one kind of edge. */
  function TargetsOf(n: Note, kind: EdgeKind): seq<string> {
    match kind
    case Wikilink => []
    case Provenance => n.frontmatter.provenance
    case Supersedes => n.frontmatter.supersedes
    case Contradicts => n.frontmatter.contradicts
  }

  /** Every link and every frontmatter reference of a note has its edge. */
  lemma EveryLinkHasItsEdge(notes: seq<Note>, n: Note, t: string)
    requires n in notes && t in n.links
    ensures LinkEdge(Links.IndexOf(notes), n, t) in GraphOf(notes).edges
  {
    hide Links.IndexOf;
    hide LinkEdge;
    hide LinkEdges;
    hide TypedEdges;
    hide AllEdges;
    LinkEdgeIn(Links.IndexOf(notes), n, n.links, t);
    NoteEdgeIn(Links.IndexOf(notes), notes, n, LinkEdge(Links.IndexOf(notes), n, t));
  }

  lemma EveryReferenceHasItsEdge(notes: seq<Note>, n: Note, kind: EdgeKind, t: string)
    requires n in notes && t in TargetsOf(n, kind)
    ensures Edge(NoteName(n), Unbracketed(t), kind) in GraphOf(notes).edges
  {
    hide Links.IndexOf;
    hide LinkEdges;
    hide TypedEdges;
    hide AllEdges;
    hide Unbracketed;
    hide NoteName;
    TypedEdgeIn(n, kind, TargetsOf(n, kind), t);
    NoteEdgeIn(Links.IndexOf(notes), notes, n, Edge(NoteName(n), Unbracketed(t), kind));
  }

  // ---- the edges in full

  /** A frontmatter reference stands between brackets that are dropped, each where it is there. */
  lemma BracketsDropped(raw: string) returns (open: string, text: string, close: string)
    ensures raw == open + text + close && Unbracketed(raw) == Trim(text)
    ensures open == "[[" || (open == "" && forall rest: string :: raw != "[[" + rest)
    ensures close == "]]" || (close == "" && forall rest: string :: text != rest + "]]")
  {
    hide Trim;
    open := if |raw| >= 2 && raw[..2] == "[[" then "[[" else "";
    var inner := raw[|open|..];
    close := if |inner| >= 2 && inner[|inner| - 2..] == "]]" then "]]" else "";
    text := inner[..|inner| - |close|];
    assert inner == text + close;
    assert raw[0..] == raw && inner[..|inner| - 0] == inner;
    var bare := if |raw| >= 2 && raw[..2] == "[[" then raw[2..] else raw;
    assert bare == inner;
    assert text == if |inner| >= 2 && inner[|inner| - 2..] == "]]" then inner[..|inner| - 2] else inner;
    if open == "" {
      forall rest: string ensures raw != "[[" + rest { assert ("[[" + rest)[..2] == "[["; }
    }
    if close == "" {
      forall rest: string ensures text != rest + "]]" { assert (rest + "]]")[|rest|..] == "]]"; }
    }
  }

  /** The targets a note names, its links and then its references, each with its kind. */
  ghost function Named(n: Note): seq<(EdgeKind, string)> {
    Of(Wikilink, n.links) + Of(Provenance, n.frontmatter.provenance)
      + Of(Supersedes, n.frontmatter.supersedes) + Of(Contradicts, n.frontmatter.contradicts)
  }

  ghost function Of(kind: EdgeKind, targets: seq<string>): seq<(EdgeKind, string)> {
    seq(|targets|, i requires 0 <= i < |targets| => (kind, targets[i]))
  }

  /** The edge of a named target: a link's to the note it resolves to, or else to its text, a reference's to its text. */
  ghost predicate IsEdgeOf(notes: seq<Note>, n: Note, named: (EdgeKind, string), e: Edge) {
    && e.from == NoteName(n) && e.kind == named.0
    && match named.0
       case Wikilink =>
         var found := Links.ResolveLink(Links.IndexOf(notes), named.1, n.relPath);
         e.to == if found.Some? then found.value else named.1
       case _ => e.to == Unbracketed(named.1)
  }

  /** The edges from the `at`-th on are those of this note, one for each target it names, in order. */
  ghost predicate EdgesAt(notes: seq<Note>, n: Note, edges: seq<Edge>, at: nat) {
    && at + |Named(n)| <= |edges|
    && forall j :: 0 <= j < |Named(n)| ==> IsEdgeOf(notes, n, Named(n)[j], edges[at..][j])
  }

  /** The graph has the edges of every note, note by note, and no others: `at` is where each note's begin. */
  lemma EdgesInFull(notes: seq<Note>) returns (at: seq<nat>)
    ensures |at| == |notes| + 1 && at[0] == 0 && at[|notes|] == |GraphOf(notes).edges|
    ensures forall k {:trigger at[k]} :: 0 <= k < |notes| ==>
      at[k + 1] == at[k] + |Named(notes[k])| && EdgesAt(notes, notes[k], GraphOf(notes).edges, at[k])
  {
    hide *;
    GraphIs(notes);
    at := EdgesOfAll(notes, notes);
  }

  lemma GraphIs(notes: seq<Note>)
    ensures GraphOf(notes).edges == AllEdges(Links.IndexOf(notes), notes)
  {}

  lemma {:induction false} EdgesOfAll(notes: seq<Note>, some: seq<Note>) returns (at: seq<nat>)
    ensures |at| == |some| + 1 && at[0] == 0 && at[|some|] == |AllEdges(Links.IndexOf(notes), some)|
    ensures forall k {:trigger at[k]} :: 0 <= k < |some| ==>
      at[k + 1] == at[k] + |Named(some[k])| && EdgesAt(notes, some[k], AllEdges(Links.IndexOf(notes), some), at[k])
  {
    hide *;
    var index := Links.IndexOf(notes);
    at := [0];
    AllEdgesIs(index, some);
    if |some| > 0 {
      var init, n := some[..|some| - 1], some[|some| - 1];
      var before := AllEdges(index, init);
      var early := EdgesOfAll(notes, init);
      NoteEdgesAre(notes, n);
      StandsFor(notes, n, NoteEdges(index, n));
      at := early + [|before| + |NoteEdges(index, n)|];
      AddedAt(notes, n, before, NoteEdges(index, n));
      forall k | 0 <= k < |some|
        ensures at[k + 1] == at[k] + |Named(some[k])| && EdgesAt(notes, some[k], AllEdges(index, some), at[k])
      {
        if k < |init| {
          assert early[k + 1] == early[k] + |Named(init[k])|;
          KeptAt(notes, some[k], before, NoteEdges(index, n), at[k]);
        }
      }
    }
  }

  lemma AllEdgesIs(index: Links.LinkIndex, notes: seq<Note>)
    ensures |notes| == 0 ==> AllEdges(index, notes) == []
    ensures |notes| > 0 ==> AllEdges(index, notes) == AllEdges(index, notes[..|notes| - 1]) + NoteEdges(index, notes[|notes| - 1])
  {}

  lemma KeptAt(notes: seq<Note>, n: Note, edges: seq<Edge>, more: seq<Edge>, at: nat)
    requires EdgesAt(notes, n, edges, at)
    ensures EdgesAt(notes, n, edges + more, at)
  {
    hide Named, IsEdgeOf;
    assert (edges + more)[at..] == edges[at..] + more;
  }

  lemma AddedAt(notes: seq<Note>, n: Note, edges: seq<Edge>, own: seq<Edge>)
    requires Stand(notes, n, Named(n), own)
    ensures EdgesAt(notes, n, edges + own, |edges|)
  {
    hide Named, IsEdgeOf;
    assert (edges + own)[|edges|..] == own;
  }

  /** One list of edges stands for one list of targets. */
  ghost predicate Stand(notes: seq<Note>, n: Note, named: seq<(EdgeKind, string)>, edges: seq<Edge>) {
    |edges| == |named| && forall j :: 0 <= j < |named| ==> IsEdgeOf(notes, n, named[j], edges[j])
  }

  lemma StandsFor(notes: seq<Note>, n: Note, edges: seq<Edge>)
    requires Stand(notes, n, Named(n), edges)
    ensures |edges| == |Named(n)|
  {}

  lemma StandBoth(notes: seq<Note>, n: Note, a: seq<(EdgeKind, string)>, x: seq<Edge>, b: seq<(EdgeKind, string)>, y: seq<Edge>)
    requires Stand(notes, n, a, x) && Stand(notes, n, b, y)
    ensures Stand(notes, n, a + b, x + y)
  {
    hide IsEdgeOf;
  }

  lemma {:induction false} LinksStand(notes: seq<Note>, n: Note, links: seq<string>)
    ensures Stand(notes, n, Of(Wikilink, links), LinkEdges(Links.IndexOf(notes), n, links))
  {
    hide Links.ResolveLink, Links.IndexOf, NoteName;
    if |links| > 0 {
      var last := |links| - 1;
      LinksStand(notes, n, links[..last]);
      LastOfKind(Wikilink, links);
      StandBoth(notes, n, Of(Wikilink, links[..last]), LinkEdges(Links.IndexOf(notes), n, links[..last]),
        [(Wikilink, links[last])], [LinkEdge(Links.IndexOf(notes), n, links[last])]);
    }
  }

  lemma {:induction false} ReferencesStand(notes: seq<Note>, n: Note, kind: EdgeKind, targets: seq<string>)
    requires kind != Wikilink
    ensures Stand(notes, n, Of(kind, targets), TypedEdges(n, kind, targets))
  {
    hide Unbracketed, NoteName;
    if |targets| > 0 {
      var last := |targets| - 1;
      ReferencesStand(notes, n, kind, targets[..last]);
      LastOfKind(kind, targets);
      StandBoth(notes, n, Of(kind, targets[..last]), TypedEdges(n, kind, targets[..last]),
        [(kind, targets[last])], [Edge(NoteName(n), Unbracketed(targets[last]), kind)]);
    }
  }

  lemma LastOfKind(kind: EdgeKind, targets: seq<string>)
    requires |targets| > 0
    ensures Of(kind, targets) == Of(kind, targets[..|targets| - 1]) + [(kind, targets[|targets| - 1])]
  {}

  lemma NoteEdgesAre(notes: seq<Note>, n: Note)
    ensures Stand(notes, n, Named(n), NoteEdges(Links.IndexOf(notes), n))
  {
    hide Of, LinkEdges, TypedEdges, Stand, Links.IndexOf;
    var f, index := n.frontmatter, Links.IndexOf(notes);
    LinksStand(notes, n, n.links);
    ReferencesStand(notes, n, Provenance, f.provenance);
    ReferencesStand(notes, n, Supersedes, f.supersedes);
    ReferencesStand(notes, n, Contradicts, f.contradicts);
    var a, x := Of(Wikilink, n.links), LinkEdges(index, n, n.links);
    var b, y := Of(Provenance, f.provenance), TypedEdges(n, Provenance, f.provenance);
    var c, z := Of(Supersedes, f.supersedes), TypedEdges(n, Supersedes, f.supersedes);
    StandBoth(notes, n, a, x, b, y);
    StandBoth(notes, n, a + b, x + y, c, z);
    StandBoth(notes, n, a + b + c, x + y + z, Of(Contradicts, f.contradicts), TypedEdges(n, Contradicts, f.contradicts));
  }

  method BuildGraph(notes: seq<Note>) returns (g: Graph)
    ensures g == GraphOf(notes)
  {
    hide Links.IndexOf;
    hide AllEdges;
    var nodes := BuildNodes(notes);
    var index := Links.BuildLinkIndex(notes);
    var edges := BuildEdges(index, notes);
    g := Graph(nodes, edges);
  }

  /** The first note with each name. */
  method BuildNodes(notes: seq<Note>) returns (nodes: map<string, Note>)
    ensures nodes == Links.IndexOf(notes).byName
  {
    hide NoteName;
    hide Links.PathKey;
    hide Links.StemKey;
    nodes := map[];
    for i := 0 to |notes|
      invariant nodes == Links.IndexOf(notes[..i]).byName
    {
      assert notes[..i + 1][..i] == notes[..i];
      var name := NoteName(notes[i]);
      if name !in nodes { nodes := nodes[name := notes[i]]; }
    }
    assert notes[..|notes|] == notes;
  }

  method BuildEdges(index: Links.LinkIndex, notes: seq<Note>) returns (edges: seq<Edge>)
    ensures edges == AllEdges(index, notes)
  {
    hide NoteEdges;
    edges := [];
    for i := 0 to |notes|
      invariant edges == AllEdges(index, notes[..i])
    {
      assert notes[..i + 1][..i] == notes[..i];
      var more := EdgesOfNote(index, notes[i]);
      edges := edges + more;
    }
    assert notes[..|notes|] == notes;
  }

  /** The wikilinks of one note in order, then its typed edges. */
  method EdgesOfNote(index: Links.LinkIndex, n: Note) returns (edges: seq<Edge>)
    ensures edges == NoteEdges(index, n)
  {
    hide Links.ResolveLink;
    hide NoteName;
    edges := [];
    for i := 0 to |n.links|
      invariant edges == LinkEdges(index, n, n.links[..i])
    {
      assert n.links[..i + 1][..i] == n.links[..i];
      var to := Links.ResolveLink(index, n.links[i], n.relPath);
      edges := edges + [Edge(NoteName(n), if to.Some? then to.value else n.links[i], Wikilink)];
    }
    assert n.links[..|n.links|] == n.links;
    var provenance := EdgesOfKind(n, Provenance, n.frontmatter.provenance);
    var supersedes := EdgesOfKind(n, Supersedes, n.frontmatter.supersedes);
    var contradicts := EdgesOfKind(n, Contradicts, n.frontmatter.contradicts);
    edges := edges + provenance + supersedes + contradicts;
  }

  method EdgesOfKind(n: Note, kind: EdgeKind, targets: seq<string>) returns (edges: seq<Edge>)
    ensures edges == TypedEdges(n, kind, targets)
  {
    hide NoteName;
    hide Unbracketed;
    edges := [];
    for i := 0 to |targets|
      invariant edges == TypedEdges(n, kind, targets[..i])
    {
      assert targets[..i + 1][..i] == targets[..i];
      edges := edges + [Edge(NoteName(n), Unbracketed(targets[i]), kind)];
    }
    assert targets[..|targets|] == targets;
  }

  // ---- neighbourhoods

  /** Some edge, of any kind and in either direction, joins the two names. */
  ghost predicate Linked(edges: seq<Edge>, a: string, b: string) {
    exists i :: 0 <= i < |edges| && ((edges[i].from == a && edges[i].to == b) || (edges[i].from == b && edges[i].to == a))
  }

  ghost predicate IsWalk(edges: seq<Edge>, p: seq<string>, a: string, b: string) {
    && |p| > 0 && p[0] == a && p[|p| - 1] == b
    && forall i :: 0 <= i < |p| - 1 ==> Linked(edges, p[i], p[i + 1])
  }

  /** A walk of at most `d` edges joins the two names. */
  ghost predicate Within(edges: seq<Edge>, a: string, b: string, d: int) {
    exists p :: IsWalk(edges, p, a, b) && |p| <= d + 1
  }

  lemma WithinSelf(edges: seq<Edge>, a: string, d: int)
    requires d >= 0
    ensures Within(edges, a, a, d)
  {
    assert IsWalk(edges, [a], a, a);
  }

  lemma OneEdgeAway(edges: seq<Edge>, e: Edge)
    requires e in edges
    ensures Within(edges, e.from, e.to, 1)
  {
    var i :| 0 <= i < |edges| && edges[i] == e;
    assert Linked(edges, e.from, e.to);
    assert IsWalk(edges, [e.from, e.to], e.from, e.to);
  }

  lemma WithinZero(edges: seq<Edge>, a: string, b: string)
    ensures Within(edges, a, b, 0) <==> a == b
  {
    WithinSelf(edges, a, 0);
  }

  lemma WithinMore(edges: seq<Edge>, a: string, b: string, d: int, e: int)
    requires Within(edges, a, b, d) && d <= e
    ensures Within(edges, a, b, e)
  {}

  lemma WithinStep(edges: seq<Edge>, a: string, b: string, c: string, d: int)
    requires Within(edges, a, b, d) && Linked(edges, b, c)
    ensures Within(edges, a, c, d + 1)
  {
    var p :| IsWalk(edges, p, a, b) && |p| <= d + 1;
    assert IsWalk(edges, p + [c], a, c);
  }

  /** The last step of a walk. */
  lemma WithinLast(edges: seq<Edge>, a: string, c: string, d: int) returns (b: string)
    requires d >= 0 && Within(edges, a, c, d + 1) && !Within(edges, a, c, d)
    ensures Within(edges, a, b, d) && Linked(edges, b, c)
  {
    var p :| IsWalk(edges, p, a, c) && |p| <= d + 2;
    assert |p| > 1 by {
      if |p| == 1 { WithinSelf(edges, a, d); }
    }
    b := p[|p| - 2];
    assert p[|p| - 2 + 1] == c;
    assert IsWalk(edges, p[..|p| - 1], a, b);
  }

  /** Walks may be walked back: the neighbourhood relation is symmetric. */
  lemma WithinBack(edges: seq<Edge>, a: string, b: string, d: int)
    requires Within(edges, a, b, d)
    ensures Within(edges, b, a, d)
  {
    var p :| IsWalk(edges, p, a, b) && |p| <= d + 1;
    var q := seq(|p|, i requires 0 <= i < |p| => p[|p| - 1 - i]);
    forall i | 0 <= i < |q| - 1 ensures Linked(edges, q[i], q[i + 1]) {
      assert Linked(edges, p[|p| - 2 - i], p[|p| - 2 - i + 1]);
    }
    assert IsWalk(edges, q, b, a);
  }

  /** A ring with nothing beyond it ends the neighbourhood. */
  lemma {:induction false} NothingBeyond(edges: seq<Edge>, a: string, d: nat, e: nat, c: string)
    requires forall x :: Within(edges, a, x, d + 1) ==> Within(edges, a, x, d)
    requires d <= e && Within(edges, a, c, e)
    ensures Within(edges, a, c, d)
    decreases e
  {
    if e > d && !Within(edges, a, c, e - 1) {
      var b := WithinLast(edges, a, c, e - 1);
      NothingBeyond(edges, a, d, e - 1, b);
      WithinStep(edges, a, b, c, d);
    } else if e > d {
      NothingBeyond(edges, a, d, e - 1, c);
    }
  }

  /** One ring further: the names an edge joins to the frontier that were not seen before. */
  method NextRing(edges: seq<Edge>, frontier: set<string>, seen: set<string>) returns (next: set<string>)
    ensures forall c :: c in next <==> c !in seen && exists b :: b in frontier && Linked(edges, b, c)
  {
    next := {};
    for i := 0 to |edges|
      invariant forall c :: c in next <==> c !in seen && exists b :: b in frontier && Linked(edges[..i], b, c)
    {
      var e := edges[i];
      ghost var before := next;
      if e.from in frontier && e.to !in seen { next := next + {e.to}; }
      if e.to in frontier && e.from !in seen { next := next + {e.from}; }
      forall c ensures c in next <==> c !in seen && exists b :: b in frontier && Linked(edges[..i + 1], b, c) {
        RingStep(edges, i, frontier, c);
      }
    }
    assert edges[..|edges|] == edges;
  }

  lemma RingStep(edges: seq<Edge>, i: nat, frontier: set<string>, c: string)
    requires i < |edges|
    ensures (exists b :: b in frontier && Linked(edges[..i + 1], b, c))
       <==> (exists b :: b in frontier && Linked(edges[..i], b, c))
            || (edges[i].from in frontier && edges[i].to == c) || (edges[i].to in frontier && edges[i].from == c)
  {
    forall b ensures Linked(edges[..i + 1], b, c)
                <==> Linked(edges[..i], b, c) || (edges[i].from == b && edges[i].to == c) || (edges[i].to == b && edges[i].from == c)
    {
      LinkedMore(edges, i, b, c);
    }
  }

  lemma LinkedMore(edges: seq<Edge>, i: nat, b: string, c: string)
    requires i < |edges|
    ensures Linked(edges[..i + 1], b, c)
       <==> Linked(edges[..i], b, c) || (edges[i].from == b && edges[i].to == c) || (edges[i].to == b && edges[i].from == c)
  {
    var s, t := edges[..i], edges[..i + 1];
    assert t[i] == edges[i];
    if k :| 0 <= k < |s| && ((s[k].from == b && s[k].to == c) || (s[k].from == c && s[k].to == b)) { assert t[k] == s[k]; }
    if k :| 0 <= k < |t| && ((t[k].from == b && t[k].to == c) || (t[k].from == c && t[k].to == b)) {
      if k < i { assert s[k] == t[k]; }
    }
  }

  /** `seen` is everything within `d` edges of `name`, `frontier` what only the last edge reached. */
  ghost predicate Rings(edges: seq<Edge>, name: string, d: int, seen: set<string>, frontier: set<string>) {
    && (forall c :: c in seen <==> Within(edges, name, c, d))
    && (forall c :: c in frontier <==> c in seen && !(d > 0 && Within(edges, name, c, d - 1)))
  }

  lemma RingsStart(edges: seq<Edge>, name: string)
    ensures Rings(edges, name, 0, {name}, {name})
  {
    forall c ensures c in {name} <==> Within(edges, name, c, 0) { WithinZero(edges, name, c); }
  }

  lemma RingsStep(edges: seq<Edge>, name: string, d: nat, seen: set<string>, frontier: set<string>, next: set<string>)
    requires Rings(edges, name, d, seen, frontier)
    requires forall c :: c in next <==> c !in seen && exists b :: b in frontier && Linked(edges, b, c)
    ensures Rings(edges, name, d + 1, seen + next, next)
  {
    hide Within;
    hide Linked;
    forall c ensures c in seen + next <==> Within(edges, name, c, d + 1) {
      if c in next {
        var b :| b in frontier && Linked(edges, b, c);
        WithinStep(edges, name, b, c, d);
      } else if c in seen {
        WithinMore(edges, name, c, d, d + 1);
      } else if Within(edges, name, c, d + 1) {
        var b := WithinLast(edges, name, c, d);
        if d > 0 && Within(edges, name, b, d - 1) { WithinStep(edges, name, b, c, d - 1); }
      }
    }
  }

  lemma RingsEnd(edges: seq<Edge>, name: string, d: nat, depth: int, seen: set<string>, frontier: set<string>)
    requires Rings(edges, name, d, seen, frontier) && d <= depth && (frontier == {} || d == depth)
    ensures forall c :: c in seen <==> Within(edges, name, c, depth)
  {
    hide Within;
    if d < depth {
      forall c | Within(edges, name, c, d) ensures d > 0 && Within(edges, name, c, d - 1) {
        assert c in seen;
      }
      if d == 0 {
        WithinZero(edges, name, name);
        assert false;
      }
      forall c ensures c in seen <==> Within(edges, name, c, depth) {
        if Within(edges, name, c, depth) { NothingBeyond(edges, name, d - 1, depth, c); WithinMore(edges, name, c, d - 1, d); }
        if c in seen { WithinMore(edges, name, c, d, depth); }
      }
    }
  }

  /** Every name, other than the note's own, that at most `depth` edges join to it. */
  method Neighbors(g: Graph, name: string, depth: int) returns (r: set<string>)
    ensures forall c :: c in r <==> c != name && depth >= 0 && Within(g.edges, name, c, depth)
  {
    hide *;
    var seen, frontier := {name}, {name};
    RingsStart(g.edges, name);
    var d := 0;
    while d < depth && frontier != {}
      invariant 0 <= d && (depth >= 0 ==> d <= depth) && (depth < 0 ==> d == 0 && seen == {name})
      invariant Rings(g.edges, name, d, seen, frontier)
      decreases depth - d
    {
      var next := NextRing(g.edges, frontier, seen);
      RingsStep(g.edges, name, d, seen, frontier, next);
      seen := seen + next;
      frontier := next;
      d := d + 1;
    }
    if depth >= 0 { RingsEnd(g.edges, name, d, depth, seen, frontier); }
    r := seen - {name};
  }
}
