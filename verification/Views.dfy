/** What packages/server/src/context.ts serves. */
module Views {
  // The ranker over a list of notes, and the view of the vault one identity gets.
  // Everything here is a value; the module Context keeps these values up to date.

  import opened Text
  import opened Vault
  import opened Audience
  import opened Identity
  import Graph
  import Links
  import SearchIndex

  datatype Choice = Bm25 | Hybrid | Dense | Fused

  /** A dense index: each name with the note its passages were embedded from. */
  type Vectors = map<string, Note>

  /** What a full embedding of the notes holds: of two notes with one name, the first. */
  function VectorsOf(notes: seq<Note>): Vectors {
    if |notes| == 0 then map[]
    else
      var init, n := VectorsOf(notes[..|notes| - 1]), notes[|notes| - 1];
      if NoteName(n) in init then init else init[NoteName(n) := n]
  }

  /** The note embedded for a name is the first that is called so. */
  lemma {:induction false} FirstIsEmbedded(notes: seq<Note>, i: nat)
    requires i < |notes| && forall j :: 0 <= j < i ==> NoteName(notes[j]) != NoteName(notes[i])
    ensures NoteName(notes[i]) in VectorsOf(notes) && VectorsOf(notes)[NoteName(notes[i])] == notes[i]
  {
    hide NoteName;
    var last := |notes| - 1;
    if i < last {
      FirstIsEmbedded(notes[..last], i);
    } else {
      NotEmbedded(notes[..last], NoteName(notes[i]));
    }
  }

  lemma {:induction false} NotEmbedded(notes: seq<Note>, name: string)
    requires forall j :: 0 <= j < |notes| ==> NoteName(notes[j]) != name
    ensures name !in VectorsOf(notes)
  {
    hide NoteName;
    if |notes| > 0 { NotEmbedded(notes[..|notes| - 1], name); }
  }

  datatype Inner =
    | Lexical(index: SearchIndex.Index)
    | Expanding(over: seq<Note>, graph: Graph.Graph)
    | Semantic(vectors: Vectors)
    | Fusing(index: SearchIndex.Index, vectors: Vectors)

  /** Every ranker is wrapped by the status demotion of the notes it ranks. */
  datatype Ranker = StatusAware(inner: Inner, over: seq<Note>)

  /** The ranker `rank` builds, for the lexical index it uses and the dense index it was given. */
  function RankerFor(choice: Choice, over: seq<Note>, graph: Graph.Graph, index: SearchIndex.Index, vectors: Option<Vectors>): Ranker {
    StatusAware(
      if (choice.Dense? || choice.Fused?) && vectors.Some? then
        if choice.Dense? then Semantic(vectors.value) else Fusing(index, vectors.value)
      else if choice.Hybrid? then Expanding(over, graph)
      else Lexical(index),
      over)
  }

  function NamesOf(notes: seq<Note>): set<string> {
    set n | n in notes :: NoteName(n)
  }

  /** `sliceDense`: the vectors of the names that stay. */
  function Slice(vectors: Vectors, subset: seq<Note>): Vectors {
    map name | name in vectors && name in NamesOf(subset) :: vectors[name]
  }

  datatype View = View(notes: seq<Note>, graph: Graph.Graph, ranker: Ranker, identity: Identity)

  /** The names that exist in the vault but not for this reader. */
  function Hidden(notes: seq<Note>, scope: seq<string>): set<string> {
    NamesOf(notes) - NamesOf(FilterVisible(notes, scope))
  }

  function WithoutNames(edges: seq<Graph.Edge>, hidden: set<string>): (r: seq<Graph.Edge>)
    ensures forall e :: e in r <==> e in edges && e.to !in hidden && e.from !in hidden
  {
    if |edges| == 0 then []
    else
      var last := edges[|edges| - 1];
      WithoutNames(edges[..|edges| - 1], hidden) + if last.to in hidden || last.from in hidden then [] else [last]
  }

  function ViewGraph(visible: seq<Note>, hidden: set<string>): Graph.Graph {
    var full := Graph.GraphOf(visible);
    Graph.Graph(full.nodes, WithoutNames(full.edges, hidden))
  }

  /** The vectors a view ranks over: all of them where nothing is filtered out, else the slice. */
  function Shared(vectors: Option<Vectors>, visible: seq<Note>, scope: seq<string>): Option<Vectors> {
    if vectors.Some? && EVERYTHING !in scope then Some(Slice(vectors.value, visible)) else vectors
  }

  /** `buildView`: the vault as one identity sees it, built from what is served now. */
  function BuildView(choice: Choice, notes: seq<Note>, vectors: Option<Vectors>, id: Identity): View {
    var visible := FilterVisible(notes, id.read);
    var graph := ViewGraph(visible, Hidden(notes, id.read));
    View(visible, graph, RankerFor(choice, visible, graph, SearchIndex.IndexOf(visible), Shared(vectors, visible, id.read)), id)
  }

  /** A scope that holds everything ranks over the served notes and the whole dense index, however old that is. */
  lemma SeesTheWhole(choice: Choice, notes: seq<Note>, vectors: Option<Vectors>, id: Identity)
    requires EVERYTHING in id.read
    ensures var graph := ViewGraph(notes, {});
      BuildView(choice, notes, vectors, id) == View(notes, graph, RankerFor(choice, notes, graph, SearchIndex.IndexOf(notes), vectors), id)
  {
    hide ViewGraph;
    hide RankerFor;
    assert Hidden(notes, id.read) == {};
  }

  /** Every document is that of one of the notes, every note's name has one. */
  ghost predicate DocumentsOf(index: SearchIndex.Index, notes: seq<Note>) {
    && (forall name :: name in index ==> SearchIndex.IsDocument(index[name], notes, name))
    && (forall i :: 0 <= i < |notes| ==> NoteName(notes[i]) in index)
  }

  lemma IndexIsDocuments(notes: seq<Note>)
    ensures DocumentsOf(SearchIndex.IndexOf(notes), notes)
  {
    hide NoteName;
    hide SearchIndex.IndexOf;
    hide SearchIndex.IsDocument;
    forall name | name in SearchIndex.IndexOf(notes)
      ensures SearchIndex.IsDocument(SearchIndex.IndexOf(notes)[name], notes, name)
    {
      SearchIndex.IndexHoldsNotes(notes, name);
    }
    forall i | 0 <= i < |notes| ensures NoteName(notes[i]) in SearchIndex.IndexOf(notes) {
      SearchIndex.IndexNames(notes, NoteName(notes[i]));
    }
  }

  /** The passages are those of the dense index, of the names among the notes, and of no other. */
  ghost predicate PassagesOf(vectors: Vectors, shared: Vectors, notes: seq<Note>) {
    && (forall name :: name in vectors <==> name in shared && exists n :: n in notes && NoteName(n) == name)
    && (forall name :: name in vectors && name in shared ==> vectors[name] == shared[name])
  }

  /** The passages ranked: the whole dense index, or those of it that are of the names among the notes. */
  ghost predicate Passages(own: Vectors, vectors: Option<Vectors>, notes: seq<Note>, whole: bool) {
    vectors.Some? && if whole then own == vectors.value else PassagesOf(own, vectors.value, notes)
  }

  /**
    The ranker ranks these notes: its kind is the one chosen, dense only once
    there is a dense index and lexical until then, its documents are those of the
    notes and its passages those of the dense index.
   */
  ghost predicate Ranks(choice: Choice, ranker: Ranker, notes: seq<Note>, graph: Graph.Graph, vectors: Option<Vectors>, whole: bool) {
    && ranker.over == notes
    && match ranker.inner
       case Lexical(index) => DocumentsOf(index, notes) && (choice.Bm25? || (vectors.None? && !choice.Hybrid?))
       case Expanding(over, g) => over == notes && g == graph && choice.Hybrid?
       case Semantic(own) => choice.Dense? && Passages(own, vectors, notes, whole)
       case Fusing(index, own) => choice.Fused? && DocumentsOf(index, notes) && Passages(own, vectors, notes, whole)
  }

  lemma RankerRanks(choice: Choice, notes: seq<Note>, graph: Graph.Graph, vectors: Option<Vectors>)
    ensures Ranks(choice, RankerFor(choice, notes, graph, SearchIndex.IndexOf(notes), vectors), notes, graph, vectors, true)
  {
    hide SearchIndex.IndexOf;
    hide DocumentsOf;
    IndexIsDocuments(notes);
  }

  /** A view's ranker ranks the view's own notes and nothing else. */
  lemma ViewRanksItsNotes(choice: Choice, notes: seq<Note>, vectors: Option<Vectors>, id: Identity)
    ensures var v := BuildView(choice, notes, vectors, id);
      v.identity == id && Ranks(choice, v.ranker, v.notes, v.graph, vectors, "*" in id.read)
  {
    hide NoteName;
    hide SearchIndex.IndexOf;
    hide ViewGraph;
    hide FilterVisible;
    hide DocumentsOf;
    IndexIsDocuments(FilterVisible(notes, id.read));
  }

  lemma {:induction false} EdgesKept(edges: seq<Graph.Edge>, hidden: set<string>, e: Graph.Edge)
    ensures multiset(WithoutNames(edges, hidden))[e] == if e.to in hidden || e.from in hidden then 0 else multiset(edges)[e]
  {
    hide WithoutNames;
    NoEdges(hidden);
    if |edges| > 0 {
      var last := |edges| - 1;
      EdgesKept(edges[..last], hidden, e);
      OneEdgeMore(edges[..last], edges[last], e);
      LastEdge(edges, hidden);
      assert edges == edges[..last] + [edges[last]];
      OneEdgeMore(WithoutNames(edges[..last], hidden), edges[last], e);
    }
  }

  lemma NoEdges(hidden: set<string>)
    ensures WithoutNames([], hidden) == []
  {}

  lemma OneEdgeMore(edges: seq<Graph.Edge>, more: Graph.Edge, e: Graph.Edge)
    ensures multiset(edges + [more])[e] == multiset(edges)[e] + if more == e then 1 else 0
  {}

  lemma LastEdge(edges: seq<Graph.Edge>, hidden: set<string>)
    requires |edges| > 0
    ensures var init, last := WithoutNames(edges[..|edges| - 1], hidden), edges[|edges| - 1];
      WithoutNames(edges, hidden) == if last.to in hidden || last.from in hidden then init else init + [last]
  {
    var init, last := WithoutNames(edges[..|edges| - 1], hidden), edges[|edges| - 1];
    assert init + [] == init;
  }

  /** A view's graph is that of its own notes, without the edges that name a hidden note at either end. */
  lemma ViewGraphIsItsOwn(choice: Choice, notes: seq<Note>, vectors: Option<Vectors>, id: Identity, e: Graph.Edge)
    ensures var v := BuildView(choice, notes, vectors, id);
      && v.graph.nodes == Graph.GraphOf(v.notes).nodes
      && multiset(v.graph.edges)[e] ==
           if NamesHidden(notes, v.notes, e.to) || NamesHidden(notes, v.notes, e.from) then 0 else multiset(Graph.GraphOf(v.notes).edges)[e]
  {
    hide NoteName;
    hide Graph.GraphOf;
    hide FilterVisible;
    hide RankerFor;
    hide WithoutNames;
    var visible := FilterVisible(notes, id.read);
    EdgesKept(Graph.GraphOf(visible).edges, Hidden(notes, id.read), e);
  }

  /** Some note is called that, and none of the ones shown. */
  ghost predicate NamesHidden(notes: seq<Note>, visible: seq<Note>, name: string) {
    (exists n :: n in notes && NoteName(n) == name) && forall n :: n in visible ==> NoteName(n) != name
  }

  /** Which notes a view holds follows from their audience as written. */
  lemma ViewHoldsWhatIsOpen(choice: Choice, notes: seq<Note>, vectors: Option<Vectors>, id: Identity, n: Note)
    ensures n in BuildView(choice, notes, vectors, id).notes <==> n in notes && OpenTo(id.read, n.frontmatter.audience)
  {
    hide CanRead;
    hide ViewGraph;
    hide RankerFor;
    hide Shared;
    hide OpenTo;
    ReadableAsWritten(id.read, n);
    EverythingIsOpen(id.read, n);
  }

  /** The notes shown are those of `notes` that are open, each as often as it is there and in the same order: `at` is where each stands. */
  ghost predicate ShownFrom(shown: seq<Note>, notes: seq<Note>, scope: seq<string>, at: seq<nat>) {
    && |at| == |shown| && (forall k :: 0 <= k < |at| ==> at[k] < |notes| && shown[k] == notes[at[k]])
    && (forall j, k :: 0 <= j < k < |at| ==> at[j] < at[k])
    && (forall i :: 0 <= i < |notes| && OpenTo(scope, notes[i].frontmatter.audience) ==> i in at)
  }

  lemma ViewKeepsOrder(choice: Choice, notes: seq<Note>, vectors: Option<Vectors>, id: Identity) returns (at: seq<nat>)
    ensures ShownFrom(BuildView(choice, notes, vectors, id).notes, notes, id.read, at)
  {
    hide CanRead;
    hide ViewGraph;
    hide RankerFor;
    hide Shared;
    hide OpenTo;
    if EVERYTHING in id.read {
      at := seq(|notes|, i requires 0 <= i < |notes| => i);
      forall i | 0 <= i < |notes| ensures i in at { assert at[i] == i; }
    } else {
      at := ReadableInOrder(notes, id.read);
    }
  }

  lemma {:induction false} ReadableInOrder(notes: seq<Note>, scope: seq<string>) returns (at: seq<nat>)
    ensures ShownFrom(Readable(notes, scope), notes, scope, at)
    ensures forall k :: 0 <= k < |at| ==> at[k] < |notes|
  {
    hide CanRead;
    hide OpenTo;
    hide ShownFrom;
    at := [];
    if |notes| == 0 {
      NothingShown(scope);
    } else {
      var last := |notes| - 1;
      at := ReadableInOrder(notes[..last], scope);
      ReadableAsWritten(scope, notes[last]);
      ShownMore(Readable(notes[..last], scope), notes[..last], notes[last], scope, at);
      assert notes[..last] + [notes[last]] == notes;
      assert Readable(notes[..last], scope) + [] == Readable(notes[..last], scope);
      if CanRead(scope, notes[last]) { at := at + [last]; }
    }
  }

  lemma NothingShown(scope: seq<string>)
    ensures ShownFrom([], [], scope, [])
  {}

  lemma ShownMore(shown: seq<Note>, notes: seq<Note>, n: Note, scope: seq<string>, at: seq<nat>)
    requires ShownFrom(shown, notes, scope, at)
    ensures OpenTo(scope, n.frontmatter.audience) ==> ShownFrom(shown + [n], notes + [n], scope, at + [|notes|])
    ensures !OpenTo(scope, n.frontmatter.audience) ==> ShownFrom(shown, notes + [n], scope, at)
    ensures forall k :: 0 <= k < |at| ==> at[k] < |notes|
  {
    hide OpenTo;
    var more := at + [|notes|];
    forall i | 0 <= i < |notes + [n]| && OpenTo(scope, (notes + [n])[i].frontmatter.audience) ensures i in more {
      if i < |notes| { assert (notes + [n])[i] == notes[i] && i in at; } else { assert more[|at|] == i; }
    }
  }

  lemma EverythingIsOpen(scope: seq<string>, n: Note)
    ensures EVERYTHING in scope ==> OpenTo(scope, n.frontmatter.audience)
  {
    hide Lower;
    hide Trim;
  }

  /** A view depends on the reader's labels; only the identity on it is the reader's own. */
  lemma ViewByLabels(choice: Choice, notes: seq<Note>, vectors: Option<Vectors>, a: Identity, b: Identity)
    requires SameLabels(a.read, b.read)
    ensures BuildView(choice, notes, vectors, b) == BuildView(choice, notes, vectors, a).(identity := b)
  {
    hide FilterVisible;
    hide ViewGraph;
    hide Slice;
    hide RankerFor;
    SeesByLabels(notes, a.read, b.read);
  }

  /** No edge of a view has a hidden note's name at either end. */
  lemma ViewNamesNothingHidden(choice: Choice, notes: seq<Note>, vectors: Option<Vectors>, id: Identity, e: Graph.Edge)
    requires e in BuildView(choice, notes, vectors, id).graph.edges
    ensures e.from !in Hidden(notes, id.read) && e.to !in Hidden(notes, id.read)
  {}

  // ---- what the links of a view still tell

  lemma VisibleNotHidden(notes: seq<Note>, scope: seq<string>, n: Note)
    requires n in FilterVisible(notes, scope)
    ensures NoteName(n) !in Hidden(notes, scope)
  {
    hide NoteName;
    hide FilterVisible;
  }

  /**
    A readable note's link has its edge in the view exactly when it resolves among
    the readable notes or its text, as written, is not a hidden note's name. A
    text that leads to a hidden note by its path stays.
   */
  lemma ViewKeepsLink(notes: seq<Note>, scope: seq<string>, n: Note, t: string)
    requires n in FilterVisible(notes, scope) && t in n.links
    ensures var visible := FilterVisible(notes, scope);
      Graph.LinkEdge(Links.IndexOf(visible), n, t) in ViewGraph(visible, Hidden(notes, scope)).edges
      <==> Links.ResolveLink(Links.IndexOf(visible), t, n.relPath).Some? || t !in Hidden(notes, scope)
  {
    hide Links.IndexOf;
    hide Links.ResolveLink;
    hide Graph.GraphOf;
    hide NoteName;
    hide FilterVisible;
    hide Hidden;
    var visible := FilterVisible(notes, scope);
    Graph.EveryLinkHasItsEdge(visible, n, t);
    VisibleNotHidden(notes, scope, n);
    var to := Links.ResolveLink(Links.IndexOf(visible), t, n.relPath);
    if to.Some? { ResolvedIsVisible(notes, scope, t, n.relPath); }
  }

  lemma ResolvedIsVisible(notes: seq<Note>, scope: seq<string>, t: string, from: string)
    requires Links.ResolveLink(Links.IndexOf(FilterVisible(notes, scope)), t, from).Some?
    ensures Links.ResolveLink(Links.IndexOf(FilterVisible(notes, scope)), t, from).value !in Hidden(notes, scope)
  {
    hide Links.IndexOf;
    hide Links.ResolveLink;
    hide Links.Indexes;
    hide NoteName;
    hide FilterVisible;
    hide Hidden;
    var visible := FilterVisible(notes, scope);
    Links.IndexOfIndexes(visible);
    Links.ResolvesToANote(Links.IndexOf(visible), visible, t, from);
    var name := Links.ResolveLink(Links.IndexOf(visible), t, from).value;
    var n :| n in visible && NoteName(n) == name;
    VisibleNotHidden(notes, scope, n);
  }

  /** A frontmatter reference is never resolved: its edge stays exactly when its text is not a hidden note's name. */
  lemma ViewKeepsReference(notes: seq<Note>, scope: seq<string>, n: Note, kind: Graph.EdgeKind, t: string)
    requires n in FilterVisible(notes, scope) && t in Graph.TargetsOf(n, kind)
    ensures Graph.Edge(NoteName(n), Graph.Unbracketed(t), kind) in ViewGraph(FilterVisible(notes, scope), Hidden(notes, scope)).edges
      <==> Graph.Unbracketed(t) !in Hidden(notes, scope)
  {
    hide Graph.GraphOf;
    hide Graph.Unbracketed;
    hide Graph.TargetsOf;
    hide NoteName;
    hide FilterVisible;
    hide Hidden;
    Graph.EveryReferenceHasItsEdge(FilterVisible(notes, scope), n, kind, t);
    VisibleNotHidden(notes, scope, n);
  }

  /** A public note that links a note without audience by its path. */
  function Acme(): Note {
    Note("acme.md", Frontmatter("acme", "", [PUBLIC], [], [], []), "", ["people/rossi"])
  }

  function Rossi(): Note {
    Note("people/rossi" + ".md", Frontmatter("rossi", "", [], [], [], []), "", [])
  }

  lemma AcmeReadable(scope: seq<string>)
    requires EVERYTHING !in scope
    ensures Readable([Acme(), Rossi()], scope) == [Acme()]
  {
    hide CanRead;
    var notes := [Acme(), Rossi()];
    PublicIsSeen(scope, Acme());
    SilentIsPrivate(scope, Rossi());
    assert notes[..1] == [Acme()];
    assert notes[..1][..0] == [];
    assert Readable(notes[..1][..0], scope) == [];
    assert Readable(notes[..1], scope) == [Acme()];
  }

  lemma AcmeNames()
    ensures NoteName(Acme()) == "acme" && NoteName(Rossi()) == "rossi"
    ensures NamesOf([Acme()]) == {"acme"} && NamesOf([Acme(), Rossi()]) == {"acme", "rossi"}
  {
    assert Acme() in [Acme()];
    assert Acme() in [Acme(), Rossi()] && Rossi() in [Acme(), Rossi()];
  }

  lemma AcmeVisible(scope: seq<string>)
    requires EVERYTHING !in scope
    ensures FilterVisible([Acme(), Rossi()], scope) == [Acme()]
    ensures Hidden([Acme(), Rossi()], scope) == {"rossi"}
  {
    hide CanRead;
    hide NoteName;
    hide NamesOf;
    hide Readable;
    AcmeReadable(scope);
    AcmeNames();
    assert "rossi"[0] != "acme"[0];
  }

  lemma AcmeKey()
    ensures Links.PathKey(Acme()) == "acme" && Links.StemKey(Acme()) == "acme"
  {
    hide Links.PathKey;
    hide Links.StemKey;
    LowerPlain("acme");
    assert "acme" + ".md" == "acme.md";
    Links.KeyOf(Acme(), "acme");
    Links.StemAtTheRoot(Acme());
  }

  lemma RossiLower()
    ensures Lower("people/rossi") == "people/rossi"
  {
    hide Lower;
    LowerPlain("people/rossi");
  }

  lemma RossiKey()
    ensures Links.PathKey(Rossi()) == "people/rossi"
  {
    hide Links.PathKey;
    hide Lower;
    RossiLower();
    Links.KeyOf(Rossi(), "people/rossi");
  }

  lemma RossiPath()
    ensures "people" + "/" + "rossi" == "people/rossi" && Links.Plainly("people/rossi") && LastOf(Split("people/rossi", '/')) == "rossi"
    ensures Links.DirOf("acme.md") == ""
  {
    hide Split;
    hide Lower;
    hide Links.Plainly;
    hide Links.DirOf;
    assert "people" + "/" + "rossi" == "people/rossi";
    RossiLower();
    Links.PlainlyTwo("people", "rossi");
    Links.TwoSegments("people", "rossi");
    Links.FileAtTheRoot("acme.md");
  }

  /** In the view the path leads nowhere, so the edge keeps its text; in the whole vault it leads to the hidden note. */
  lemma AcmeEdges()
    ensures Graph.LinkEdge(Links.IndexOf([Acme()]), Acme(), "people/rossi") == Graph.Edge("acme", "people/rossi", Graph.Wikilink)
    ensures Graph.LinkEdge(Links.IndexOf([Acme(), Rossi()]), Acme(), "people/rossi") == Graph.Edge("acme", "rossi", Graph.Wikilink)
  {
    hide Links.IndexOf;
    hide Links.ResolveLink;
    hide Links.Indexes;
    hide Links.Plainly;
    hide Links.PathKey;
    hide Links.StemKey;
    hide Links.DirOf;
    hide NoteName;
    hide Split;
    var one, two := [Acme()], [Acme(), Rossi()];
    AcmeNames();
    AcmeKey();
    RossiKey();
    RossiPath();
    assert "rossi"[0] != "acme"[0];
    Links.IndexOfIndexes(one);
    Links.UnknownText(Links.IndexOf(one), one, "people/rossi", "acme.md");
    Links.IndexOfIndexes(two);
    assert Links.PathsDiffer(two);
    Links.PathFromTheRoot(Links.IndexOf(two), two, "people/rossi", "acme.md", Rossi());
  }

  /**
    The view of a reader who may not open `people/rossi.md` has an edge from
    `acme` to the text "people/rossi", so that its neighbourhood names the note
    by its path; the same link is the edge to the hidden note in the whole vault.
   */
  lemma PathOfAHiddenNoteStays(choice: Choice, vectors: Option<Vectors>, id: Identity)
    requires EVERYTHING !in id.read
    ensures "rossi" in Hidden([Acme(), Rossi()], id.read)
    ensures Graph.Edge("acme", "rossi", Graph.Wikilink) in Graph.GraphOf([Acme(), Rossi()]).edges
    ensures Graph.Edge("acme", "people/rossi", Graph.Wikilink) in BuildView(choice, [Acme(), Rossi()], vectors, id).graph.edges
    ensures Graph.Within(BuildView(choice, [Acme(), Rossi()], vectors, id).graph.edges, "acme", "people/rossi", 1)
  {
    hide Links.IndexOf;
    hide Links.ResolveLink;
    hide Graph.GraphOf;
    hide Graph.LinkEdge;
    hide ViewGraph;
    hide Hidden;
    hide FilterVisible;
    hide RankerFor;
    hide Shared;
    hide NoteName;
    var notes := [Acme(), Rossi()];
    AcmeVisible(id.read);
    AcmeEdges();
    assert Acme() in notes && Acme() in [Acme()] && "people/rossi" in Acme().links;
    Graph.EveryLinkHasItsEdge(notes, Acme(), "people/rossi");
    PathsAreNoNames();
    ViewKeepsLink(notes, id.read, Acme(), "people/rossi");
    Graph.OneEdgeAway(BuildView(choice, notes, vectors, id).graph.edges, Graph.Edge("acme", "people/rossi", Graph.Wikilink));
  }

  lemma PathsAreNoNames()
    ensures "people/rossi" !in {"rossi"}
  {
    assert |"people/rossi"| != |"rossi"|;
  }

  // ---- what a reader cannot tell

  /** The two vaults differ only in what the scope may not read: hidden notes keep their names, nothing else. */
  ghost predicate AlikeFor(scope: seq<string>, notes: seq<Note>, other: seq<Note>) {
    && |notes| == |other|
    && forall i :: 0 <= i < |notes| ==>
         && (CanRead(scope, notes[i]) <==> CanRead(scope, other[i]))
         && (CanRead(scope, notes[i]) ==> notes[i] == other[i])
         && NoteName(notes[i]) == NoteName(other[i])
  }

  lemma {:induction false} AlikeReadable(scope: seq<string>, notes: seq<Note>, other: seq<Note>)
    requires AlikeFor(scope, notes, other)
    ensures Readable(notes, scope) == Readable(other, scope) && NamesOf(notes) == NamesOf(other)
  {
    hide CanRead;
    hide NoteName;
    hide NamesOf;
    if |notes| > 0 {
      var m, n := notes[..|notes| - 1], other[..|other| - 1];
      AlikeReadable(scope, m, n);
      NamesOfMore(m, notes[|notes| - 1]);
      NamesOfMore(n, other[|other| - 1]);
      assert notes == m + [notes[|notes| - 1]] && other == n + [other[|other| - 1]];
    } else {
      assert notes == other;
    }
  }

  lemma NamesOfMore(notes: seq<Note>, n: Note)
    ensures NamesOf(notes + [n]) == NamesOf(notes) + {NoteName(n)}
  {
    hide NoteName;
    assert n in notes + [n];
  }

  lemma AlikeVisible(scope: seq<string>, notes: seq<Note>, other: seq<Note>)
    requires EVERYTHING !in scope && AlikeFor(scope, notes, other)
    ensures FilterVisible(notes, scope) == FilterVisible(other, scope) && Hidden(notes, scope) == Hidden(other, scope)
  {
    hide AlikeFor;
    AlikeReadable(scope, notes, other);
  }

  /** Without a dense index a view says nothing about the bodies, links and labels of hidden notes. */
  lemma HiddenNotesDoNotShow(choice: Choice, notes: seq<Note>, other: seq<Note>, id: Identity)
    requires EVERYTHING !in id.read && AlikeFor(id.read, notes, other)
    ensures BuildView(choice, notes, None, id) == BuildView(choice, other, None, id)
  {
    hide AlikeFor;
    hide FilterVisible;
    hide Hidden;
    hide ViewGraph;
    hide RankerFor;
    AlikeVisible(id.read, notes, other);
  }

  ghost predicate UniqueNames(notes: seq<Note>) {
    forall i, j :: 0 <= i < j < |notes| ==> NoteName(notes[i]) != NoteName(notes[j])
  }

  /**
    Every readable note's name that the dense index holds is answered there by a
    note the scope may read. The embedded notes may be older than the served ones.
   */
  ghost predicate AnswersAreReadable(notes: seq<Note>, embedded: seq<Note>, scope: seq<string>) {
    forall n :: n in Readable(notes, scope) && NoteName(n) in VectorsOf(embedded) ==> CanRead(scope, VectorsOf(embedded)[NoteName(n)])
  }

  lemma {:induction false} VectorsAnswer(notes: seq<Note>, name: string)
    ensures name in VectorsOf(notes) <==> name in NamesOf(notes)
    ensures name in VectorsOf(notes) ==> VectorsOf(notes)[name] in notes && NoteName(VectorsOf(notes)[name]) == name
  {
    hide NoteName;
    if |notes| > 0 {
      var init, n := notes[..|notes| - 1], notes[|notes| - 1];
      VectorsAnswer(init, name);
      NamesOfMore(init, n);
      assert notes == init + [n];
    }
  }

  /** When the whole vault's answer to a name is readable, it is also the answer among the readable notes. */
  lemma {:induction false} ReadableAnswer(notes: seq<Note>, scope: seq<string>, name: string)
    requires name in VectorsOf(notes) && CanRead(scope, VectorsOf(notes)[name])
    ensures name in VectorsOf(Readable(notes, scope)) && VectorsOf(Readable(notes, scope))[name] == VectorsOf(notes)[name]
  {
    hide NoteName;
    hide CanRead;
    if |notes| > 0 {
      var init, n := notes[..|notes| - 1], notes[|notes| - 1];
      var readable := Readable(init, scope);
      assert Readable(notes, scope) == if CanRead(scope, n) then readable + [n] else readable;
      VectorsMore(readable, n);
      if name in VectorsOf(init) {
        ReadableAnswer(init, scope, name);
      } else {
        NoEarlierAnswer(init, scope, name);
      }
    }
  }

  lemma NoEarlierAnswer(notes: seq<Note>, scope: seq<string>, name: string)
    requires name !in VectorsOf(notes)
    ensures name !in VectorsOf(Readable(notes, scope))
  {
    hide NoteName;
    hide CanRead;
    hide VectorsOf;
    VectorsAnswer(notes, name);
    VectorsAnswer(Readable(notes, scope), name);
  }

  lemma VectorsMore(notes: seq<Note>, n: Note)
    ensures VectorsOf(notes + [n]) == if NoteName(n) in VectorsOf(notes) then VectorsOf(notes) else VectorsOf(notes)[NoteName(n) := n]
  {
    assert (notes + [n])[..|notes|] == notes;
  }

  /**
    A view's slice of the shared dense index is the slice of an index embedded
    from nothing but what the scope may read, exactly when no unreadable note
    answers there for a readable one.
   */
  lemma SliceIsOwn(notes: seq<Note>, embedded: seq<Note>, scope: seq<string>)
    ensures Slice(VectorsOf(embedded), Readable(notes, scope)) == Slice(VectorsOf(Readable(embedded, scope)), Readable(notes, scope))
       <==> AnswersAreReadable(notes, embedded, scope)
  {
    hide *;
    if AnswersAreReadable(notes, embedded, scope) { SliceFromAnswers(notes, embedded, scope); }
    if Slice(VectorsOf(embedded), Readable(notes, scope)) == Slice(VectorsOf(Readable(embedded, scope)), Readable(notes, scope)) {
      AnswersFromSlice(notes, embedded, scope);
    }
  }

  lemma SliceFromAnswers(notes: seq<Note>, embedded: seq<Note>, scope: seq<string>)
    requires AnswersAreReadable(notes, embedded, scope)
    ensures Slice(VectorsOf(embedded), Readable(notes, scope)) == Slice(VectorsOf(Readable(embedded, scope)), Readable(notes, scope))
  {
    hide NoteName;
    hide CanRead;
    hide VectorsOf;
    forall name | name in NamesOf(Readable(notes, scope))
      ensures name in VectorsOf(embedded) <==> name in VectorsOf(Readable(embedded, scope))
      ensures name in VectorsOf(embedded) ==> VectorsOf(Readable(embedded, scope))[name] == VectorsOf(embedded)[name]
    {
      var n :| n in Readable(notes, scope) && NoteName(n) == name;
      if name in VectorsOf(embedded) {
        ReadableAnswer(embedded, scope, name);
      } else {
        NoEarlierAnswer(embedded, scope, name);
      }
    }
  }

  lemma AnswersFromSlice(notes: seq<Note>, embedded: seq<Note>, scope: seq<string>)
    requires Slice(VectorsOf(embedded), Readable(notes, scope)) == Slice(VectorsOf(Readable(embedded, scope)), Readable(notes, scope))
    ensures AnswersAreReadable(notes, embedded, scope)
  {
    hide NoteName;
    hide CanRead;
    hide VectorsOf;
    var visible := Readable(notes, scope);
    forall n | n in visible && NoteName(n) in VectorsOf(embedded) ensures CanRead(scope, VectorsOf(embedded)[NoteName(n)]) {
      assert NoteName(n) in NamesOf(visible);
      assert NoteName(n) in Slice(VectorsOf(embedded), visible);
      assert NoteName(n) in Slice(VectorsOf(Readable(embedded, scope)), visible);
      VectorsAnswer(Readable(embedded, scope), NoteName(n));
    }
  }

  /** With unique names and an index of the served notes themselves, no unreadable note answers for a readable one. */
  lemma UniqueNamesAnswer(notes: seq<Note>, scope: seq<string>)
    requires UniqueNames(notes)
    ensures AnswersAreReadable(notes, notes, scope)
  {
    hide NoteName;
    hide CanRead;
    hide VectorsOf;
    forall n | n in Readable(notes, scope) && NoteName(n) in VectorsOf(notes) ensures CanRead(scope, VectorsOf(notes)[NoteName(n)]) {
      VectorsAnswer(notes, NoteName(n));
      var first := VectorsOf(notes)[NoteName(n)];
      var i :| 0 <= i < |notes| && notes[i] == n;
      var j :| 0 <= j < |notes| && notes[j] == first;
    }
  }

  /** Vaults that differ in hidden notes alone answer a name by the same readable note, or both by a hidden one. */
  lemma {:induction false} AlikeAnswer(scope: seq<string>, notes: seq<Note>, other: seq<Note>, name: string)
    requires AlikeFor(scope, notes, other)
    ensures name in VectorsOf(notes) <==> name in VectorsOf(other)
    ensures name in VectorsOf(notes) && CanRead(scope, VectorsOf(notes)[name]) ==> VectorsOf(other)[name] == VectorsOf(notes)[name]
  {
    hide NoteName;
    hide CanRead;
    if |notes| > 0 {
      AlikeAnswer(scope, notes[..|notes| - 1], other[..|other| - 1], name);
    }
  }

  lemma AlikeSlice(scope: seq<string>, notes: seq<Note>, embedded: seq<Note>, other: seq<Note>)
    requires AlikeFor(scope, embedded, other) && AnswersAreReadable(notes, embedded, scope)
    ensures Slice(VectorsOf(other), Readable(notes, scope)) == Slice(VectorsOf(embedded), Readable(notes, scope))
  {
    hide NoteName;
    hide CanRead;
    hide VectorsOf;
    hide AlikeFor;
    forall name | name in NamesOf(Readable(notes, scope))
      ensures name in VectorsOf(embedded) <==> name in VectorsOf(other)
      ensures name in VectorsOf(embedded) ==> VectorsOf(other)[name] == VectorsOf(embedded)[name]
    {
      var n :| n in Readable(notes, scope) && NoteName(n) == name;
      AlikeAnswer(scope, embedded, other, name);
    }
  }

  /**
    A view, dense index included, is the same when hidden notes change body,
    links and labels, now and at the time they were embedded, as long as no
    unreadable note answers in the index for a readable one.
   */
  lemma HiddenNotesDoNotShowDense(choice: Choice, notes: seq<Note>, other: seq<Note>, embedded: seq<Note>, otherEmbedded: seq<Note>, id: Identity)
    requires EVERYTHING !in id.read && AlikeFor(id.read, notes, other) && AlikeFor(id.read, embedded, otherEmbedded)
    requires AnswersAreReadable(notes, embedded, id.read)
    ensures BuildView(choice, notes, Some(VectorsOf(embedded)), id) == BuildView(choice, other, Some(VectorsOf(otherEmbedded)), id)
  {
    hide AlikeFor;
    hide Hidden;
    hide ViewGraph;
    hide RankerFor;
    hide Slice;
    hide AnswersAreReadable;
    AlikeVisible(id.read, notes, other);
    AlikeSlice(id.read, notes, embedded, otherEmbedded);
  }

  /** With unique names and an index of the served notes, a view never shows hidden notes. */
  lemma HiddenNotesDoNotShowCurrent(choice: Choice, notes: seq<Note>, other: seq<Note>, id: Identity)
    requires EVERYTHING !in id.read && AlikeFor(id.read, notes, other) && UniqueNames(notes)
    ensures BuildView(choice, notes, Some(VectorsOf(notes)), id) == BuildView(choice, other, Some(VectorsOf(other)), id)
  {
    hide *;
    UniqueNamesAnswer(notes, id.read);
    HiddenNotesDoNotShowDense(choice, notes, other, notes, other, id);
  }

  // ---- when the dense index does tell

  /** The note with another body, if the scope may not read it. */
  function Rewritten(scope: seq<string>, n: Note): Note {
    if CanRead(scope, n) then n else n.(body := n.body + "x")
  }

  function AllRewritten(scope: seq<string>, notes: seq<Note>): seq<Note> {
    if |notes| == 0 then [] else AllRewritten(scope, notes[..|notes| - 1]) + [Rewritten(scope, notes[|notes| - 1])]
  }

  lemma RewrittenAlike(scope: seq<string>, n: Note)
    ensures NoteName(Rewritten(scope, n)) == NoteName(n) && (CanRead(scope, Rewritten(scope, n)) <==> CanRead(scope, n))
  {}

  lemma {:induction false} AllRewrittenAlike(scope: seq<string>, notes: seq<Note>)
    ensures AlikeFor(scope, notes, AllRewritten(scope, notes))
  {
    hide NoteName;
    hide CanRead;
    hide Rewritten;
    if |notes| > 0 {
      var n := notes[|notes| - 1];
      AllRewrittenAlike(scope, notes[..|notes| - 1]);
      RewrittenAlike(scope, n);
      RewrittenReadable(scope, n);
    }
  }

  lemma RewrittenReadable(scope: seq<string>, n: Note)
    ensures CanRead(scope, n) <==> Rewritten(scope, n) == n
  {
    assert n.(body := n.body + "x").body != n.body;
  }

  lemma {:induction false} RewrittenAnswer(scope: seq<string>, notes: seq<Note>, name: string)
    ensures name in VectorsOf(AllRewritten(scope, notes)) <==> name in VectorsOf(notes)
    ensures name in VectorsOf(notes) ==> VectorsOf(AllRewritten(scope, notes))[name] == Rewritten(scope, VectorsOf(notes)[name])
  {
    hide NoteName;
    hide CanRead;
    hide Rewritten;
    if |notes| > 0 {
      var init, n := notes[..|notes| - 1], notes[|notes| - 1];
      RewrittenAnswer(scope, init, name);
      RewrittenAnswer(scope, init, NoteName(n));
      RewrittenAlike(scope, n);
      VectorsMore(AllRewritten(scope, init), Rewritten(scope, n));
    }
  }

  /** Whatever the unreadable notes held when they were embedded, the view comes out the same. */
  ghost predicate SilentOnHidden(choice: Choice, notes: seq<Note>, embedded: seq<Note>, id: Identity) {
    forall other :: AlikeFor(id.read, embedded, other) ==>
      BuildView(choice, notes, Some(VectorsOf(other)), id) == BuildView(choice, notes, Some(VectorsOf(embedded)), id)
  }

  lemma SameViewSameSlice(choice: Choice, notes: seq<Note>, embedded: seq<Note>, other: seq<Note>, id: Identity)
    requires (choice.Dense? || choice.Fused?) && EVERYTHING !in id.read
    requires BuildView(choice, notes, Some(VectorsOf(other)), id) == BuildView(choice, notes, Some(VectorsOf(embedded)), id)
    ensures Slice(VectorsOf(other), Readable(notes, id.read)) == Slice(VectorsOf(embedded), Readable(notes, id.read))
  {
    hide ViewGraph;
    hide Slice;
    hide Hidden;
    hide VectorsOf;
  }

  lemma SilentAnswers(choice: Choice, notes: seq<Note>, embedded: seq<Note>, id: Identity)
    requires (choice.Dense? || choice.Fused?) && EVERYTHING !in id.read && SilentOnHidden(choice, notes, embedded, id)
    ensures AnswersAreReadable(notes, embedded, id.read)
  {
    hide NoteName;
    hide CanRead;
    hide VectorsOf;
    hide BuildView;
    hide AlikeFor;
    hide Rewritten;
    var other := AllRewritten(id.read, embedded);
    AllRewrittenAlike(id.read, embedded);
    SameViewSameSlice(choice, notes, embedded, other, id);
    forall n | n in Readable(notes, id.read) && NoteName(n) in VectorsOf(embedded)
      ensures CanRead(id.read, VectorsOf(embedded)[NoteName(n)])
    {
      assert NoteName(n) in NamesOf(Readable(notes, id.read));
      assert NoteName(n) in Slice(VectorsOf(embedded), Readable(notes, id.read));
      RewrittenAnswer(id.read, embedded, NoteName(n));
      RewrittenReadable(id.read, VectorsOf(embedded)[NoteName(n)]);
    }
  }

  /**
    A view over a dense index of any age is silent about what hidden notes held
    when they were embedded exactly when no unreadable note answers in it for a
    readable one.
   */
  lemma StaleIndexIsSilent(choice: Choice, notes: seq<Note>, embedded: seq<Note>, id: Identity)
    requires (choice.Dense? || choice.Fused?) && EVERYTHING !in id.read
    ensures SilentOnHidden(choice, notes, embedded, id) <==> AnswersAreReadable(notes, embedded, id.read)
  {
    hide *;
    if SilentOnHidden(choice, notes, embedded, id) { SilentAnswers(choice, notes, embedded, id); }
    if AnswersAreReadable(notes, embedded, id.read) { AnswersAreSilent(choice, notes, embedded, id); }
  }

  lemma AnswersAreSilent(choice: Choice, notes: seq<Note>, embedded: seq<Note>, id: Identity)
    requires EVERYTHING !in id.read && AnswersAreReadable(notes, embedded, id.read)
    ensures SilentOnHidden(choice, notes, embedded, id)
  {
    hide AlikeFor;
    hide BuildView;
    hide AnswersAreReadable;
    AlikeSelf(id.read, notes);
    forall other | AlikeFor(id.read, embedded, other)
      ensures BuildView(choice, notes, Some(VectorsOf(other)), id) == BuildView(choice, notes, Some(VectorsOf(embedded)), id)
    {
      HiddenNotesDoNotShowDense(choice, notes, notes, embedded, other, id);
    }
  }

  lemma AlikeSelf(scope: seq<string>, notes: seq<Note>)
    ensures AlikeFor(scope, notes, notes)
  {}

  /** With a name clash the slice can hold the passages of a note the reader may not open. */
  lemma ClashShowsHiddenNote(secret: Note, open_: Note, scope: seq<string>)
    requires EVERYTHING !in scope && NoteName(secret) == NoteName(open_) && !CanRead(scope, secret) && CanRead(scope, open_)
    ensures NoteName(open_) in Slice(VectorsOf([secret, open_]), Readable([secret, open_], scope))
    ensures Slice(VectorsOf([secret, open_]), Readable([secret, open_], scope))[NoteName(open_)] == secret
  {
    hide NoteName;
    hide CanRead;
    var notes := [secret, open_];
    assert notes[..1] == [secret];
    assert VectorsOf([secret]) == map[NoteName(secret) := secret];
    assert open_ in Readable(notes, scope);
  }
}
