/** The served state of packages/server/src/context.ts as an object. */
module Context {
  // Notes, graph, lexical index, ranker, cached views and the bookkeeping of the
  // dense index are changed by writes, reloads and landing passes. `Valid` says
  // that everything derived equals what a fresh build from the current notes would
  // give; each method's effect on the dense side is an event of `DenseQueue`.

  import opened Text
  import opened Vault
  import opened Audience
  import opened Identity
  import opened Reloading
  import opened Views
  import DenseQueue
  import Graph
  import SearchIndex

  datatype CachedView = CachedView(version: nat, view: View)

  // ---- what the fields have to agree on

  function VectorsFrom(dense: Option<seq<Note>>): Option<Vectors> {
    if dense.Some? then Some(VectorsOf(dense.value)) else None
  }

  /** The owner's ranker, built from scratch. */
  function OwnerRanker(choice: Choice, notes: seq<Note>, dense: Option<seq<Note>>): Ranker {
    RankerFor(choice, notes, Graph.GraphOf(notes), SearchIndex.IndexOf(notes), VectorsFrom(dense))
  }

  /** The view an identity would get if nothing were cached. */
  function FreshView(choice: Choice, notes: seq<Note>, dense: Option<seq<Note>>, id: Identity): View {
    if id.owner then View(notes, Graph.GraphOf(notes), OwnerRanker(choice, notes, dense), id)
    else BuildView(choice, notes, VectorsFrom(dense), id)
  }

  /** The identities `loadAgents` lets through, besides the owner. */
  predicate Agent(id: Identity) {
    !id.owner && GoodScope(id.read)
  }

  /** A cached view of the current version is the fresh view of everyone who shares its key. */
  ghost predicate ViewsFresh(choice: Choice, notes: seq<Note>, dense: Option<seq<Note>>, version: nat, views: map<string, CachedView>) {
    forall key :: key in views ==>
      && views[key].version <= version
      && (views[key].version == version ==> forall id: Identity :: Agent(id) && ScopeKey(id) == key ==>
            views[key].view.(identity := id) == FreshView(choice, notes, dense, id))
  }

  lemma NoViews(choice: Choice, notes: seq<Note>)
    ensures ViewsFresh(choice, notes, None, 1, map[])
  {}

  /** A cached view built under an older version says nothing about the present, and is not used. */
  lemma ViewsGoStale(choice: Choice, notes: seq<Note>, dense: Option<seq<Note>>, version: nat, views: map<string, CachedView>,
                     notes': seq<Note>, dense': Option<seq<Note>>)
    requires ViewsFresh(choice, notes, dense, version, views)
    ensures ViewsFresh(choice, notes', dense', version + 1, views)
  {
    hide FreshView;
    hide ScopeKey;
    hide Agent;
  }

  lemma ViewCached(choice: Choice, notes: seq<Note>, dense: Option<seq<Note>>, version: nat, views: map<string, CachedView>, id: Identity)
    requires ViewsFresh(choice, notes, dense, version, views) && Agent(id)
    ensures ViewsFresh(choice, notes, dense, version,
              views[ScopeKey(id) := CachedView(version, FreshView(choice, notes, dense, id))])
  {
    hide BuildView;
    hide ScopeKey;
    hide GoodScope;
    forall other: Identity | Agent(other) && ScopeKey(other) == ScopeKey(id)
      ensures FreshView(choice, notes, dense, id).(identity := other) == FreshView(choice, notes, dense, other)
    {
      ScopeKeySeparates(id, other);
      ViewByLabels(choice, notes, VectorsFrom(dense), id, other);
    }
  }

  lemma FreshViewHolds(choice: Choice, notes: seq<Note>, dense: Option<seq<Note>>, id: Identity)
    ensures var view := FreshView(choice, notes, dense, id);
      && view.identity == id
      && Ranks(choice, view.ranker, view.notes, view.graph, VectorsFrom(dense), id.owner || "*" in id.read)
      && forall n :: n in view.notes <==> n in notes && (id.owner || OpenTo(id.read, n.frontmatter.audience))
  {
    hide OpenTo;
    hide BuildView;
    hide Ranks;
    hide RankerFor;
    if id.owner {
      RankerRanks(choice, notes, Graph.GraphOf(notes), VectorsFrom(dense));
    } else {
      ViewRanksItsNotes(choice, notes, VectorsFrom(dense), id);
      forall n ensures n in BuildView(choice, notes, VectorsFrom(dense), id).notes <==> n in notes && OpenTo(id.read, n.frontmatter.audience) {
        ViewHoldsWhatIsOpen(choice, notes, VectorsFrom(dense), id, n);
      }
    }
  }

  // ---- a view between a write and the pass that embeds it

  /** The view a reader gets after `was` has been embedded and rewritten as `now`, before the next pass. */
  ghost function ViewBetween(was: Note, now: Note, id: Identity): View {
    var s := DenseQueue.Run(DenseQueue.Start([was], true), DenseQueue.WARM + [DenseQueue.Change([now])]);
    FreshView(Dense, s.notes, s.dense, id)
  }

  /**
    A hidden note rewritten so that the reader may open it: until the pass lands
    the reader ranks over the passages of the hidden version. Two servers that
    differ only in what that version held give the reader two views.
   */
  lemma RewrittenNoteShows(was: Note, other: Note, now: Note, id: Identity)
    requires !id.owner && EVERYTHING !in id.read && NoteName(was) == NoteName(other) == NoteName(now)
    requires !CanRead(id.read, was) && !CanRead(id.read, other) && CanRead(id.read, now) && was != other
    ensures AlikeFor(id.read, [was], [other]) && UniqueNames([was]) && UniqueNames([other]) && UniqueNames([now])
    ensures ViewBetween(was, now, id).notes == [now] == ViewBetween(other, now, id).notes
    ensures ViewBetween(was, now, id).ranker.inner == Semantic(map[NoteName(now) := was])
    ensures ViewBetween(was, now, id) != ViewBetween(other, now, id)
  {
    hide NoteName;
    hide CanRead;
    hide ViewBetween;
    Between(was, now, id);
    Between(other, now, id);
    assert map[NoteName(now) := was][NoteName(now)] != map[NoteName(now) := other][NoteName(now)];
  }

  lemma Between(was: Note, now: Note, id: Identity)
    requires !id.owner && EVERYTHING !in id.read && NoteName(was) == NoteName(now) && CanRead(id.read, now)
    ensures ViewBetween(was, now, id).notes == [now] && ViewBetween(was, now, id).ranker.inner == Semantic(map[NoteName(now) := was])
  {
    hide NoteName;
    hide CanRead;
    hide DenseQueue.Run;
    hide DenseQueue.Start;
    hide ViewGraph;
    hide Hidden;
    hide NamesOf;
    hide Readable;
    hide VectorsOf;
    hide Slice;
    DenseQueue.WriteOutdates([was], [now]);
    OneNote(was);
    OneReadable(now, id.read);
    OneSlice(was, now);
  }

  lemma OneSlice(was: Note, now: Note)
    requires NoteName(was) == NoteName(now)
    ensures Slice(map[NoteName(was) := was], [now]) == map[NoteName(now) := was]
  {
    hide NoteName;
    assert now in [now];
    assert NoteName(now) in NamesOf([now]);
  }

  lemma OneNote(n: Note)
    ensures VectorsOf([n]) == map[NoteName(n) := n]
  {
    hide NoteName;
    assert [n][..0] == [];
  }

  lemma OneReadable(n: Note, scope: seq<string>)
    requires CanRead(scope, n)
    ensures Readable([n], scope) == [n]
  {
    hide CanRead;
    assert [n][..0] == [];
  }

  function XNote(audience: seq<string>, body: string): Note {
    Note("x.md", Frontmatter("x", "", audience, [], [], []), body, [])
  }

  lemma XName(audience: seq<string>, body: string)
    ensures NoteName(XNote(audience, body)) == "x"
  {}

  /** Such notes: one without audience, and its public rewriting. */
  lemma APublicRewriting(secret: string, other: string, redacted: string)
    requires secret != other
    ensures var team := Identity("agent", false, ["team"]);
      ViewBetween(XNote([], secret), XNote([PUBLIC], redacted), team) != ViewBetween(XNote([], other), XNote([PUBLIC], redacted), team)
  {
    hide ViewBetween;
    hide CanRead;
    hide NoteName;
    var team := Identity("agent", false, ["team"]);
    SilentIsPrivate(["team"], XNote([], secret));
    SilentIsPrivate(["team"], XNote([], other));
    PublicIsSeen(["team"], XNote([PUBLIC], redacted));
    XName([], secret);
    XName([], other);
    XName([PUBLIC], redacted);
    assert XNote([], secret).body != XNote([], other).body;
    RewrittenNoteShows(XNote([], secret), XNote([], other), XNote([PUBLIC], redacted), team);
  }

  // ---- the lexical index across a write

  /** Whether an upsert is right: the file keeps its name, and no other file answers to it. */
  predicate MayUpsert(notes: seq<Note>, note: Note) {
    var at := FileAt(notes, note.relPath);
    && (at < |notes| ==> NoteName(notes[at]) == NoteName(note))
    && forall i :: 0 <= i < |Written(notes, note)| ==>
         Written(notes, note)[i].relPath != note.relPath ==> NoteName(Written(notes, note)[i]) != NoteName(note)
  }

  /** Under the guard, upserting the written note gives the index of the new notes. */
  lemma UpsertIsRebuild(notes: seq<Note>, note: Note)
    requires UniquePaths(notes) && MayUpsert(notes, note)
    ensures SearchIndex.IndexOf(Written(notes, note)) == SearchIndex.IndexOf(notes)[NoteName(note) := SearchIndex.DocOf(note)]
  {
    hide NoteName;
    hide SearchIndex.IndexOf;
    var at := FileAt(notes, note.relPath);
    var after := Written(notes, note);
    if at < |notes| {
      forall i | 0 <= i < |notes| && i != at ensures NoteName(notes[i]) != NoteName(note) {
        assert after[i] == notes[i] && notes[i].relPath != note.relPath;
      }
      SearchIndex.UpsertInPlace(notes, at, note);
    } else {
      forall i | 0 <= i < |notes| ensures NoteName(notes[i]) != NoteName(note) {
        assert after[i] == notes[i] && notes[i].relPath != note.relPath;
      }
      SearchIndex.IndexNames(notes, NoteName(note));
      SearchIndex.UpsertAppended(notes, note);
    }
  }

  /** Whether another file of the new notes answers to the written note's name. */
  method FindClash(notes: seq<Note>, note: Note) returns (clash: bool)
    ensures clash <==> exists i :: 0 <= i < |notes| && notes[i].relPath != note.relPath && NoteName(notes[i]) == NoteName(note)
  {
    hide NoteName;
    clash := false;
    for i := 0 to |notes|
      invariant clash <==> exists j :: 0 <= j < i && notes[j].relPath != note.relPath && NoteName(notes[j]) == NoteName(note)
    {
      if notes[i].relPath != note.relPath && NoteName(notes[i]) == NoteName(note) { clash := true; }
    }
  }

  /** The index after a write: updated in place under the guard, discarded otherwise. */
  method UpdateLexical(lexical: Option<SearchIndex.Index>, notes: seq<Note>, note: Note) returns (after: Option<SearchIndex.Index>)
    requires UniquePaths(notes)
    requires lexical.Some? ==> lexical.value == SearchIndex.IndexOf(notes)
    ensures after.Some? <==> lexical.Some? && MayUpsert(notes, note)
    ensures after.Some? ==> after.value == SearchIndex.IndexOf(Written(notes, note))
  {
    hide NoteName;
    hide SearchIndex.IndexOf;
    var at := FindFile(notes, note.relPath);
    var renamed := at < |notes| && NoteName(notes[at]) != NoteName(note);
    var clash := FindClash(Written(notes, note), note);
    if lexical.Some? && !renamed && !clash {
      UpsertIsRebuild(notes, note);
      var index := SearchIndex.UpsertSearchDoc(lexical.value, note);
      assert index == lexical.value[NoteName(note) := SearchIndex.DocOf(note)];
      after := Some(index);
    } else {
      after := None;
    }
  }

  // ---- the context

  class BrainContext {
    const choice: Choice
    var notes: seq<Note>
    var graph: Graph.Graph
    var lexical: Option<SearchIndex.Index>
    var retriever: Ranker
    var version: nat
    var views: map<string, CachedView>
    var generation: nat
    var dense: Option<seq<Note>>
    var denseModel: bool
    var warmup: DenseQueue.Warmup
    var running: Option<DenseQueue.Pass>
    var denseQueued: Option<nat>
    var denseTail: nat
    var landed: nat
    var waiter: DenseQueue.Waiter
    ghost var failedAt: Option<nat>
    ghost var built: Option<nat>

    /** The dense side, as `DenseQueue` sees it. */
    ghost function Queue(): DenseQueue.State
      reads this
    {
      DenseQueue.State(notes, generation, dense, denseModel, warmup, running, denseQueued, denseTail, landed, failedAt, built, waiter)
    }

    /** Everything derived is what a fresh build would be, and the dense side is sound. */
    ghost predicate Valid()
      reads this
    {
      && UniquePaths(notes)
      && graph == Graph.GraphOf(notes)
      && (lexical.Some? ==> lexical.value == SearchIndex.IndexOf(notes))
      && retriever == OwnerRanker(choice, notes, dense)
      && ViewsFresh(choice, notes, dense, version, views)
      && DenseQueue.Sound(Queue())
    }

    constructor (choice: Choice, loaded: seq<Note>)
      requires UniquePaths(loaded)
      ensures Valid() && this.choice == choice && notes == loaded && version == 1 && views == map[]
      ensures Queue() == DenseQueue.Start(loaded, choice.Dense? || choice.Fused?)
    {
      hide SearchIndex.IndexOf;
      hide Graph.GraphOf;
      hide UniquePaths;
      hide OwnerRanker;
      hide ViewsFresh;
      hide DenseQueue.Sound;
      this.choice := choice;
      notes := loaded;
      version, views, generation := 1, map[], 0;
      dense, denseModel := None, false;
      warmup := if choice.Dense? || choice.Fused? then DenseQueue.Loading else DenseQueue.NotWanted;
      running, denseQueued, denseTail, landed := None, None, 0, 0;
      waiter, failedAt, built := DenseQueue.Away, None, None;
      lexical := None;
      new;
      NoViews(choice, loaded);
      graph := Graph.BuildGraph(loaded);
      Rank();
      DenseQueue.StartIsSound(loaded, choice.Dense? || choice.Fused?);
    }

    /** `rank` over the served notes themselves: reuses the lexical index, or builds and keeps one where the ranker needs it. */
    method RankNotes(over: Graph.Graph) returns (ranker: Ranker)
      requires lexical.Some? ==> lexical.value == SearchIndex.IndexOf(notes)
      modifies this`lexical
      ensures ranker == RankerFor(choice, notes, over, SearchIndex.IndexOf(notes), VectorsFrom(dense))
      ensures lexical.Some? ==> lexical.value == SearchIndex.IndexOf(notes)
      ensures old(lexical).Some? ==> lexical == old(lexical)
    {
      hide VectorsOf;
      hide SearchIndex.IndexOf;
      var inner: Inner;
      if choice.Dense? && dense.Some? {
        inner := Semantic(VectorsOf(dense.value));
      } else if choice.Hybrid? {
        inner := Expanding(notes, over);
      } else {
        if lexical.None? {
          var built := SearchIndex.BuildSearchIndex(notes);
          lexical := Some(built);
        }
        inner := if choice.Fused? && dense.Some? then Fusing(lexical.value, VectorsOf(dense.value)) else Lexical(lexical.value);
      }
      ranker := StatusAware(inner, notes);
    }

    /** The owner's ranker. */
    method Rank()
      requires graph == Graph.GraphOf(notes)
      requires lexical.Some? ==> lexical.value == SearchIndex.IndexOf(notes)
      modifies this`lexical, this`retriever
      ensures retriever == OwnerRanker(choice, notes, dense)
      ensures lexical.Some? ==> lexical.value == SearchIndex.IndexOf(notes)
      ensures old(lexical).Some? ==> lexical == old(lexical)
    {
      hide VectorsOf;
      hide Graph.GraphOf;
      hide SearchIndex.IndexOf;
      hide RankerFor;
      retriever := RankNotes(graph);
    }

    /**
      `reindexDense`, up to the point where the pass waits for its turn: a pass is
      queued afterwards exactly if one was or there are a model and an index, and
      one that was queued keeps its place.
     */
    method ReindexDense()
      modifies this`denseQueued, this`denseTail
      ensures Queue() == DenseQueue.Reindex(old(Queue()))
      ensures denseQueued.Some? <==> old(denseQueued).Some? || (denseModel && dense.Some?)
      ensures old(denseQueued).Some? ==> denseQueued == old(denseQueued) && denseTail == old(denseTail)
      ensures old(denseTail) <= denseTail <= old(denseTail) + 1
    {
      if denseModel && dense.Some? && denseQueued.None? {
        denseQueued := Some(denseTail + 1);
        denseTail := denseTail + 1;
      }
    }

    /** Graph and ranker are rebuilt from the changed notes, and every cached view goes stale. */
    method Refresh(ghost before: seq<Note>)
      requires ViewsFresh(choice, before, dense, version, views)
      requires lexical.Some? ==> lexical.value == SearchIndex.IndexOf(notes)
      modifies this`graph, this`lexical, this`retriever, this`version
      ensures graph == Graph.GraphOf(notes) && retriever == OwnerRanker(choice, notes, dense)
      ensures lexical.Some? ==> lexical.value == SearchIndex.IndexOf(notes)
      ensures old(lexical).Some? ==> lexical == old(lexical)
      ensures version == old(version) + 1 && ViewsFresh(choice, notes, dense, version, views)
    {
      hide SearchIndex.IndexOf;
      hide Graph.GraphOf;
      hide OwnerRanker;
      hide ViewsFresh;
      graph := Graph.BuildGraph(notes);
      Rank();
      version := version + 1;
      ViewsGoStale(choice, before, dense, version - 1, views, notes, dense);
    }

    /** What a write and a reload share once the notes have changed. */
    method Changed(ghost before: seq<Note>, ghost was: DenseQueue.State)
      requires UniquePaths(notes) && was == Queue().(notes := before)
      requires DenseQueue.Sound(was)
      requires ViewsFresh(choice, before, dense, version, views)
      requires lexical.Some? ==> lexical.value == SearchIndex.IndexOf(notes)
      modifies this
      ensures Valid() && notes == old(notes) && version == old(version) + 1 && views == old(views)
      ensures Queue() == DenseQueue.Step(was, DenseQueue.Change(notes))
      ensures old(lexical).Some? ==> lexical == old(lexical)
    {
      hide SearchIndex.IndexOf;
      hide Graph.GraphOf;
      hide OwnerRanker;
      hide UniquePaths;
      hide ViewsFresh;
      hide DenseQueue.Sound;
      hide DenseQueue.Step;
      hide DenseQueue.Reindex;
      generation := generation + 1;
      Refresh(before);
      ReindexDense();
      DenseQueue.ChangeReindexes(was, notes);
      DenseQueue.StepKeepsSound(was, DenseQueue.Change(notes));
    }

    /** A freshly written note is folded into the served state. */
    method ApplyWrite(note: Note)
      requires Valid()
      modifies this
      ensures Valid() && notes == Written(old(notes), note) && version == old(version) + 1 && views == old(views)
      ensures note in notes && forall n :: n in notes && n.relPath == note.relPath ==> n == note
      ensures |old(notes)| <= |notes| <= |old(notes)| + 1
      ensures forall i :: 0 <= i < |old(notes)| ==> notes[i] == if old(notes)[i].relPath == note.relPath then note else old(notes)[i]
      ensures forall n: Note :: n.relPath != note.relPath ==> (n in notes <==> n in old(notes))
      ensures Queue() == DenseQueue.Step(old(Queue()), DenseQueue.Change(notes))
      ensures old(lexical).Some? && MayUpsert(old(notes), note) ==>
        lexical == Some(old(lexical).value[NoteName(note) := SearchIndex.DocOf(note)])
    {
      hide SearchIndex.IndexOf;
      hide Graph.GraphOf;
      hide OwnerRanker;
      hide NoteName;
      hide ViewsFresh;
      hide DenseQueue.Sound;
      hide MayUpsert;
      ghost var before, was := notes, Queue();
      WrittenKeepsPaths(notes, note);
      WrittenHolds(notes, note);
      var after := UpdateLexical(lexical, notes, note);
      if old(lexical).Some? && MayUpsert(old(notes), note) { UpsertIsRebuild(notes, note); }
      var at := FindFile(notes, note.relPath);
      notes := if at < |notes| then notes[at := note] else notes + [note];
      lexical := after;
      Changed(before, was);
    }

    /** The vault on disk replaces the served notes, unless the two agree file by file. */
    method ReloadNow(disk: seq<Note>) returns (stats: ReloadStats)
      requires Valid() && UniquePaths(disk)
      modifies this
      ensures Valid() && views == old(views)
      ensures stats.added == |AddedPaths(Prints(old(notes)), Prints(disk))|
      ensures stats.changed == |ChangedPaths(Prints(old(notes)), Prints(disk))|
      ensures stats.removed == |AddedPaths(Prints(disk), Prints(old(notes)))|
      ensures stats.added == |NewPaths(old(notes), disk)| && stats.changed == |EditedPaths(old(notes), disk)|
      ensures stats.removed == |NewPaths(disk, old(notes))| && stats.notes == |disk|
      ensures SameFiles(notes, disk)
      ensures stats.added == stats.changed == stats.removed == 0 <==> SameFiles(old(notes), disk)
      ensures Prints(old(notes)) == Prints(disk) ==>
        notes == old(notes) && version == old(version) && Queue() == old(Queue()) && lexical == old(lexical)
      ensures Prints(old(notes)) != Prints(disk) ==>
        notes == disk && version == old(version) + 1 && Queue() == DenseQueue.Step(old(Queue()), DenseQueue.Change(disk))
    {
      hide SearchIndex.IndexOf;
      hide Graph.GraphOf;
      hide OwnerRanker;
      hide UniquePaths;
      hide ViewsFresh;
      hide DenseQueue.Sound;
      hide Prints;
      hide SameFiles;
      hide NewPaths;
      hide EditedPaths;
      stats := Compare(notes, disk);
      NothingToDo(notes, disk);
      NothingToReload(notes, disk);
      SameAsItself(disk);
      if stats.added == 0 && stats.changed == 0 && stats.removed == 0 { return; }
      ghost var before, was := notes, Queue();
      notes := disk;
      lexical := None;
      Changed(before, was);
    }

    /** A queued pass whose turn has come reads the notes. */
    method PassStarts()
      requires Valid() && DenseQueue.Enabled(Queue(), DenseQueue.PassStarts)
      modifies this`denseQueued, this`running
      ensures Valid() && Queue() == DenseQueue.Step(old(Queue()), DenseQueue.PassStarts)
      ensures old(denseQueued).Some? && running == Some(DenseQueue.Pass(old(denseQueued).value, generation, notes)) && denseQueued == None
    {
      hide SearchIndex.IndexOf;
      hide Graph.GraphOf;
      hide OwnerRanker;
      hide UniquePaths;
      hide ViewsFresh;
      hide DenseQueue.Sound;
      DenseQueue.StepKeepsSound(Queue(), DenseQueue.PassStarts);
      running := Some(DenseQueue.Pass(denseQueued.value, generation, notes));
      denseQueued := None;
    }

    /** A new dense index is installed: the ranker is rebuilt and every cached view goes stale. */
    method Install(embedded: seq<Note>, ghost at: nat)
      requires UniquePaths(notes) && graph == Graph.GraphOf(notes)
      requires lexical.Some? ==> lexical.value == SearchIndex.IndexOf(notes)
      requires ViewsFresh(choice, notes, dense, version, views)
      modifies this`dense, this`lexical, this`retriever, this`version, this`built
      ensures dense == Some(embedded) && built == Some(at) && version == old(version) + 1
      ensures lexical.Some? ==> lexical.value == SearchIndex.IndexOf(notes)
      ensures retriever == OwnerRanker(choice, notes, dense)
      ensures ViewsFresh(choice, notes, dense, version, views)
    {
      hide SearchIndex.IndexOf;
      hide Graph.GraphOf;
      hide OwnerRanker;
      hide UniquePaths;
      hide ViewsFresh;
      ghost var was := dense;
      dense := Some(embedded);
      built := Some(at);
      Rank();
      version := version + 1;
      ViewsGoStale(choice, notes, was, version - 1, views, notes, dense);
    }

    method PassLands()
      requires Valid() && DenseQueue.Enabled(Queue(), DenseQueue.PassLands)
      modifies this
      ensures Valid() && version == old(version) + 1 && notes == old(notes)
      ensures Queue() == DenseQueue.Step(old(Queue()), DenseQueue.PassLands)
      ensures old(running).Some? && dense == Some(old(running).value.saw) && landed == old(running).value.ticket && running == None
      ensures denseQueued == old(denseQueued) && generation == old(generation) && warmup == old(warmup)
    {
      hide SearchIndex.IndexOf;
      hide Graph.GraphOf;
      hide OwnerRanker;
      hide UniquePaths;
      hide ViewsFresh;
      hide DenseQueue.Sound;
      DenseQueue.StepKeepsSound(Queue(), DenseQueue.PassLands);
      Install(running.value.saw, running.value.generation);
      landed := running.value.ticket;
      running := None;
    }

    method PassFails()
      requires Valid() && DenseQueue.Enabled(Queue(), DenseQueue.PassFails)
      modifies this`landed, this`running, this`failedAt
      ensures Valid() && Queue() == DenseQueue.Step(old(Queue()), DenseQueue.PassFails)
      ensures old(running).Some? && landed == old(running).value.ticket && running == None
    {
      hide SearchIndex.IndexOf;
      hide Graph.GraphOf;
      hide OwnerRanker;
      hide UniquePaths;
      hide ViewsFresh;
      hide DenseQueue.Sound;
      DenseQueue.StepKeepsSound(Queue(), DenseQueue.PassFails);
      landed := running.value.ticket;
      failedAt := Some(running.value.generation);
      running := None;
    }

    /** The warmup's build came back: install it if nothing changed meanwhile, else go again. */
    method WarmupBuilds()
      requires Valid() && DenseQueue.Enabled(Queue(), DenseQueue.WarmupBuilds)
      modifies this
      ensures Valid() && notes == old(notes)
      ensures Queue() == DenseQueue.Step(old(Queue()), DenseQueue.WarmupBuilds)
      ensures version == if old(warmup.seen) == generation then old(version) + 1 else old(version)
      ensures old(warmup.seen) == generation ==> dense == old(warmup.saw) && dense.Some? && denseModel && warmup == DenseQueue.Finished
      ensures old(warmup.seen) != generation ==>
        dense == old(dense) && denseModel == old(denseModel) && warmup == DenseQueue.Building(generation, None)
    {
      hide SearchIndex.IndexOf;
      hide Graph.GraphOf;
      hide OwnerRanker;
      hide UniquePaths;
      hide ViewsFresh;
      hide DenseQueue.Sound;
      DenseQueue.StepKeepsSound(Queue(), DenseQueue.WarmupBuilds);
      if warmup.seen != generation {
        warmup := DenseQueue.Building(generation, None);
      } else {
        Install(warmup.saw.value, generation);
        denseModel := true;
        warmup := DenseQueue.Finished;
      }
    }

    /** The other steps of the warmup and of a caller waiting in `settled` touch neither notes nor index. */
    method Quietly(e: DenseQueue.Event)
      requires e.ModelLoads? || e.WarmupReads? || e.WarmupFails? || e.WaitStarts? || e.WaitSeesReady? || e.WaitSeesTail?
      requires Valid() && DenseQueue.Enabled(Queue(), e)
      modifies this`warmup, this`waiter
      ensures Valid() && Queue() == DenseQueue.Step(old(Queue()), e)
    {
      hide SearchIndex.IndexOf;
      hide Graph.GraphOf;
      hide OwnerRanker;
      hide UniquePaths;
      hide ViewsFresh;
      hide DenseQueue.Sound;
      DenseQueue.StepKeepsSound(Queue(), e);
      match e {
        case ModelLoads => warmup := DenseQueue.Building(generation, None);
        case WarmupReads => warmup := DenseQueue.Building(warmup.seen, Some(notes));
        case WarmupFails => warmup := DenseQueue.Failed;
        case WaitStarts => waiter := DenseQueue.AwaitReady(denseTail);
        case WaitSeesReady => waiter := DenseQueue.AwaitTail(waiter.seen);
        case WaitSeesTail => waiter := if waiter.seen != denseTail then DenseQueue.AwaitReady(denseTail) else DenseQueue.Settled;
      }
    }

    /** The view of one identity, from the cache or built: always the view of what is served now. */
    method ForIdentity(id: Identity) returns (view: View)
      requires Valid() && (id.owner || Agent(id))
      modifies this`views, this`lexical
      ensures Valid()
      ensures view == FreshView(choice, notes, dense, id)
      ensures view.identity == id && Ranks(choice, view.ranker, view.notes, view.graph, VectorsFrom(dense), id.owner || "*" in id.read)
      ensures forall n :: n in view.notes <==> n in notes && (id.owner || OpenTo(id.read, n.frontmatter.audience))
      ensures old(lexical).Some? ==> lexical == old(lexical)
    {
      hide SearchIndex.IndexOf;
      hide Graph.GraphOf;
      hide OwnerRanker;
      hide UniquePaths;
      hide DenseQueue.Sound;
      hide BuildView;
      hide ScopeKey;
      hide GoodScope;
      hide OpenTo;
      hide Ranks;
      FreshViewHolds(choice, notes, dense, id);
      if id.owner { return View(notes, graph, retriever, id); }
      var key := ScopeKey(id);
      if key in views && views[key].version == version {
        return views[key].view.(identity := id);
      }
      if EVERYTHING in id.read {
        // nothing is filtered out, so the ranker is over the served notes themselves
        var whole := ViewGraph(notes, {});
        SeesTheWhole(choice, notes, VectorsFrom(dense), id);
        var ranker := RankNotes(whole);
        view := View(notes, whole, ranker, id);
      } else {
        view := BuildView(choice, notes, VectorsFrom(dense), id);
      }
      ViewCached(choice, notes, dense, version, views, id);
      views := views[key := CachedView(version, view)];
    }
  }
}
