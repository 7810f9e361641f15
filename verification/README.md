# Manent, modelled and proved in Dafny

Manent turns a Markdown vault into derived state (a link graph, a lexical and a
dense index, one view for each identity, communities) and keeps that state right
while several agents write. This project models the parts of it where that is hard
and proves what they promise. Weights, gains and scores are exact reals. Code that
updates state step by step is a method, or a class whose methods update its fields;
code that is interrupted by awaits is a state machine in which each stretch between
two awaits is one step, and a run is any sequence of possible steps.

**Communities** (`WeightedGraph`, `Modularity`, `Regrouping`, `Moving`, `Aggregation`,
`Clustering`, `Splitting`, `Quality`, `WikilinkGraph`, `Communities`, over the finite
sums in `Sums`). Louvain with aggregation and a final split into connected pieces.
`Modularity.Score` is modularity times `m2` as a sum over pairs of nodes; every step is
measured by it, and `Quality.ValueIsScore` says that the number reported is the same.

**Derived state** (`Vault`, `Audience`, `Identity`, `Links`, `Resolution`, `Graph`,
`SearchIndex`, `Views`, `Reloading`, `ReloadChain`, `DenseQueue`, `Context`). `Context.BrainContext` is
the served state; its `Valid` says that every derived part is what a fresh build would
give, or absent, and every method keeps it. `DenseQueue` is the re-embedding queue with
the warmup and one caller waiting in `settled`; the class makes its steps.

**Smaller machines and algorithms** (`GraphRank`, `Status`, `Chunking`, `Passages`,
`Gaps`, `GapStores`, `Following`, `Watching`, `Tasks`).

## Where the code does less than it says

Each of these is a lemma with a concrete run or input, beside one that says when the
promise does hold.

- A failed re-embedding pass leaves the dense index stale although `settled` resolves, and
  nothing else does (`DenseQueue.FailureStaysStale`, `SettledMeansServed`,
  `ChangeHealsFailure`).
- A write folded in while a reload is reading the disk can disappear from what is served
  until the next reload (`ReloadChain.AnAppliedWriteCanVanish`, `OnlyAnOldReadDrops`,
  `LastEditWins`).
- A view's slice of the dense index can hold the passages of a note its reader may not
  open: with two notes of one name, and, names unique or not, after a hidden note is rewritten
  as a readable one, until the pass that embeds it lands (`Views.ClashShowsHiddenNote`,
  `Context.RewrittenNoteShows`, `APublicRewriting`). It happens exactly when an unreadable
  note answers in the index for a readable one (`Views.StaleIndexIsSilent`, `SliceIsOwn`).
- A view drops the edges whose text is a hidden note's name, not those that lead to a hidden
  note: a link written as its path, or a frontmatter reference that is not exactly its name,
  stays and shows in the neighbourhood (`Views.PathOfAHiddenNoteStays`, `ViewKeepsLink`,
  `ViewKeepsReference`).
- A link to a file beside its note is not looked up there when the directory's name has a
  capital letter (`Links.NotesBesideAcme`, `CapitalDirectoryIsSkipped`, `RelativeResolves`).
- A gap closed while a recording of its question waits still takes the search and, with a
  vector, gets its centroid back, so that later questions can be matched to it; two overlapping
  recordings of a new question whose vectors do not bring them together open two gaps
  (`Gaps.ClosedGapGetsACentroid`, `EndedGapTakesASearch`, `CentroidsStayOpen`,
  `OverlappingRecordingsTwin`, `KeysStayDistinct`).
- The watcher can call `onChange` with an empty list, because the end of a call overwrites
  the variable of a timer that is still live; no edit is lost by it
  (`Watching.ACallForNothing`, `EmptyCallExactly`, `CallsHaveWork`, `NoEditLost`).
- A search over demoted notes returns at most a hundred hits whatever `k` is
  (`Status.AskingForAHundredAndOne`, `AsManyAsAskedFor`).
- Hard-wrapping does not end when the overlap is not smaller than the window
  (`Passages.WrappingForEver`, `WrappingStops`).
- Cancelling an expired task depends on whether somebody else's `get` has swept it away
  (`Tasks.AnothersGetTakesTheTask`, `SweepShowsInCancel`).
- A task's record is said to outlive its answer by its time to live, but that counts from
  creation: a task at work for longer is dropped, and its answer is never shown
  (`Tasks.AnAnswerNobodySees`, `TimeToLiveCountsFromCreation`).

## Model

| member | source | states |
|---|---|---|
| `Modularity.ScoreMove` | packages/curate/src/communities.ts:150-155 | moving one node changes modularity (times `m2`) by exactly twice the difference of the two gains that are compared; both are taken with the node out of its community |
| `Moving.MoveNode` | packages/curate/src/communities.ts:135-162 | one node step: `communityDegree` stays the sum of its members' degrees; the node moves only to a neighbouring community, and then modularity (times `m2`) rises by more than 2e-12; if it stays, no neighbouring community gains more than 1e-12 over staying |
| `Moving.BestCommunity` | packages/curate/src/communities.ts:140-157 | the chosen community is the node's own or a neighbouring one; a change beats staying by more than 1e-12, and no neighbouring community beats the choice by more than that |
| `Moving.LocalMoving` | packages/curate/src/communities.ts:118-166 | one pass never scores below the singletons; it has as many labels as nodes exactly when nobody moved; either every node is settled, or all thirty rounds moved something, each raising the score |
| `Moving.SettledIsLocalOptimum` | packages/curate/src/communities.ts:133-164 | when a pass stops because nothing moved, no single-node move to a neighbouring community would raise modularity (times `m2`) by more than 2e-12 |
| `Aggregation.Aggregate` | packages/curate/src/communities.ts:173-194 | the collapsed graph is symmetric with non-negative weights, has one node per label, and between two labels holds exactly the adjacency between their members (a self-loop counted twice) |
| `Regrouping.AggregateDegree` | packages/curate/src/communities.ts:168-194 | a collapsed node's degree is the sum of its members' degrees |
| `Regrouping.AggregateTotalDegree` | packages/curate/src/communities.ts:91-95 | `m2` of the base graph is the total degree of every level |
| `Regrouping.AggregateScore` | packages/curate/src/communities.ts:168-194 | any grouping of the collapsed nodes has the modularity of the grouping it induces below; with singletons: aggregation keeps the modularity of the partition |
| `Regrouping.AggregateCompose` | packages/curate/src/communities.ts:250-255 | collapsing a collapsed graph is collapsing the base graph under the composed labels |
| `Clustering.Passes` | packages/curate/src/communities.ts:247-255 | after the passes `level` is the base graph collapsed under `mapping` and its total degree is still `m2`; the partitions after the passes that were kept have strictly falling numbers of communities and each scores more than 2e-12 above every earlier one; unless twelve passes were spent no collapsed node would gain by joining a neighbour |
| `Clustering.NextPass` | packages/curate/src/communities.ts:251-255 | a pass that merged something leads from a collapse of the base graph under `mapping` to one under the composed labels; its level is strictly smaller and its score more than 2e-12 higher |
| `Clustering.NoMergeHelps` | packages/curate/src/communities.ts:250-255 | where the passes stop early, merging two communities that share a link would raise modularity (times `m2`) by no more than 2e-12 |
| `Splitting.FindPart` | packages/curate/src/communities.ts:203-216 | the stack search finds a connected piece around its start, with no edge from it to any other node inside, and disturbs nothing found before |
| `Splitting.SplitDisconnected` | packages/curate/src/communities.ts:197-219 | the parts cover the members, are pairwise disjoint, each is connected in the induced subgraph, and no edge joins one to another member outside it |
| `Modularity.ScoreSplit` | packages/curate/src/communities.ts:196-219 | separating nodes of a community that share no edge never lowers modularity |
| `Communities.CutSeparates` | packages/curate/src/communities.ts:264-269 | nodes of one number share a community of the passes; nodes of one community with different numbers share no edge |
| `Communities.CutScore` | packages/curate/src/communities.ts:264-265 | cutting every community into its connected pieces never lowers modularity |
| `Quality.ModularityOf` | packages/curate/src/communities.ts:221-234 | the loop computes the sum over communities of inner weight over `m2` minus the squared share of the degrees, nodes without a community skipped |
| `Quality.ValueIsScore` | packages/curate/src/communities.ts:221-234 | that sum over communities is the sum over pairs of nodes that the moves are measured by |
| `Quality.ModularityLowerBound` | packages/curate/src/communities.ts:221-234 | every total labelling of a graph with edges has modularity at least -1/2 |
| `Quality.ModularityUpperBound` | packages/curate/src/communities.ts:221-234 | and less than 1 |
| `Quality.InsideAndLeaving` | packages/curate/src/communities.ts:311-319 | the weight inside a part, seen from both ends, and the weight leaving it make up the degrees of its members |
| `Quality.TotalsAddUp` | packages/curate/src/communities.ts:225-228 | the degree sums of the parts add up to `m2` |
| `Communities.CountLinks` | packages/curate/src/communities.ts:311-319 | twice the reported internal edges is the weight with both ends in the part; the reported external edges are the weight with one end in it |
| `Communities.TellAll` | packages/curate/src/communities.ts:302-340 | `isolated` is the number of notes of degree zero; every other part of at least `minSize` has exactly one entry, with its own members and counts, in order |
| `Communities.NeverLosesGround` | packages/curate/src/communities.ts:247-269 | passes and cut together never score below the all-singletons partition |
| `Communities.Communities` | packages/curate/src/communities.ts:236-358 | the report's communities are the connected pieces of what the passes end with: a chain of at most twelve partitions from every note alone, each with fewer communities and a higher score, and unless twelve passes were spent merging two linked communities of the last raises the score by at most 2e-12; the pieces cover every kept note once, modularity is theirs, in [-1/2, 1), zero without links, never below the singletons'; every piece told of has its entry, with its links inside and across counted as pairs of notes; `isolated`, `nodes` and `edges` count notes without links, kept notes and links |
| `WikilinkGraph.BuildAdjacency` | packages/retrieval/src/graphrank.ts:4-17 | `b` stands in the list of `a` once for every end of an edge that joins them, never for an edge to a missing note |
| `WikilinkGraph.EntriesBothWays` | packages/retrieval/src/graphrank.ts:11-15 | two notes stand in each other's lists equally often |
| `WikilinkGraph.LinkGraph` | packages/curate/src/communities.ts:98-112 | the graph has exactly the kept notes and, between two different ones, an entry of weight one both ways exactly when one lists the other |
| `WikilinkGraph.TotalDegreeCountsLinks` | packages/curate/src/communities.ts:91-112 | the total degree counts every link from both ends, so half of it is the number of links |
| `GraphRank.PersonalizedPageRank` | packages/retrieval/src/graphrank.ts:32-58 | the loops compute the pruned walk from the seeds scaled by their total: at each step a node is ranked by `(1 - alpha)` times its seed weight plus, for every ranked node whose portion `alpha * rank / length of its list` is at least a millionth, that portion for each time the list names it; every rank on the way is told |
| `GraphRank.StepIsOneStep` | packages/retrieval/src/graphrank.ts:45-56 | the step of the walk, on which the bounds below rest, is that step, read off the adjacency lists |
| `GraphRank.NeighboursGetTheirPortion` | packages/retrieval/src/graphrank.ts:48-52 | from non-negative seeds, at every step a node that passes its rank on gives each entry of its list at least its portion |
| `GraphRank.OneSeedReachesItsNeighbours` | packages/retrieval/src/graphrank.ts:40-53 | from one seed of weight one, one step gives each of its neighbours at least `alpha` over their number, unless that is below a millionth |
| `GraphRank.PrunedBelowExact` | packages/retrieval/src/graphrank.ts:45-56 | at every node the pruned walk is non-negative and at most the walk without pruning |
| `GraphRank.PruningError` | packages/retrieval/src/graphrank.ts:51 | after n steps the pruned walk lacks at most cut x (total length of the lists) x (1 + alpha + ... + alpha^(n-1)) of the exact walk's mass |
| `GraphRank.MassNeverGrows` | packages/retrieval/src/graphrank.ts:45-56 | no walk ever has more mass than its teleport vector |
| `GraphRank.RankMass` | packages/retrieval/src/graphrank.ts:40-57 | from non-negative seeds the rank is non-negative and its mass at most 1 |
| `GraphRank.TeleportMass` | packages/retrieval/src/graphrank.ts:40-42 | seeds whose weights do not add up to zero are normalised to total 1 |
| `GraphRank.WalkStaysLocal` | packages/retrieval/src/graphrank.ts:25-31 | after n steps only nodes within n hops of a seed have a rank |
| `Context.BrainContext.constructor` | packages/server/src/context.ts:167-302 | the served state starts sound: graph, ranker and views are what a fresh build gives, the dense side is where the queue starts |
| `Context.BrainContext.ApplyWrite` | packages/server/src/context.ts:312-333 | after a write the note is served, no other note has its path, notes of other paths are as they were, replaced in place or appended; everything derived is what a fresh build would give or absent, `version` rises by one, and the dense queue makes exactly the change step |
| `Context.UpdateLexical` | packages/server/src/context.ts:314-327 | the lexical index survives a write exactly when the file keeps its name and no other file answers to it, and then equals a rebuild |
| `Context.UpsertIsRebuild` | packages/server/src/context.ts:320-326 | under that guard the in-place upsert is the index built from the new notes |
| `Context.BrainContext.ReloadNow` | packages/server/src/context.ts:247-276 | afterwards disk and served notes hold the same files with the same frontmatter and body; the statistics are the numbers of paths new on disk, of another frontmatter or body, and gone, all zero exactly when the two already agreed; then nothing changes at all, else the disk's notes are served with everything derived from them |
| `Context.BrainContext.RankNotes` | packages/server/src/context.ts:197-207 | over the served notes the ranker is the one built from scratch, and a lexical index it keeps is that of the current notes |
| `DenseQueue.BurstRidesOnOnePass` | packages/server/src/context.ts:216-225 | however many changes arrive in a row, one pass is queued for all of them: the one that waits already, else a new one at the end of the chain |
| `Context.BrainContext.PassLands` | packages/server/src/context.ts:230-233 | a pass that lands installs the index of the notes it read, rebuilds the ranker and makes every cached view stale; the state stays sound |
| `Context.BrainContext.WarmupBuilds` | packages/server/src/context.ts:373-382 | a warmup build is installed only if nothing changed while it ran, else the warmup goes again; that it never gives up for this and ends is `DenseQueue.OnlyAFailureEndsTheWarmup` and `WarmupEnds` |
| `Context.BrainContext.ForIdentity` | packages/server/src/context.ts:303-311 | every view handed out, cached or not, is the view freshly built from the current notes, the dense index there is, and the identity; it holds exactly the served notes whose audience, as written, is open to the identity's scope, and its ranker is of the kind chosen and ranks just these notes |
| `Audience.ReadableAsWritten` | packages/core/src/audience.ts:15-32 | a scope may read a note exactly when it holds `*` or one of the labels written in the note, trimmed and lowered, is `public` or is in the scope, not blank and not `private` |
| `Views.ViewHoldsWhatIsOpen` | packages/server/src/context.ts:419-430 | a view built for an identity holds a note if and only if it is served and its written audience is open to the scope |
| `Views.ViewKeepsOrder` | packages/server/src/context.ts:419-430 | in the order of the served notes, each as often as it is there |
| `Views.ViewRanksItsNotes` | packages/server/src/context.ts:197-207 | a view's ranker is of the kind chosen, lexical while there is no dense index; its documents are those of the view's own notes and its passages those of the dense index under their names, or all of them for a scope that holds everything |
| `Views.ViewGraphIsItsOwn` | packages/server/src/context.ts:420-428 | a view's graph is the graph of its own notes, less every edge with a name at either end that only hidden notes have |
| `Views.FirstIsEmbedded` | packages/retrieval/src/chunk.ts:115-123 | of several notes with one name the first is the one embedded |
| `Context.ViewCached` | packages/server/src/context.ts:305-310 | keeping a view under its scope key serves everyone who shares the key the view freshly built for them |
| `Context.ViewsGoStale` | packages/server/src/context.ts:307 | once `version` has risen no cached view is used, whatever has changed |
| `DenseQueue.RunsAreSound` | packages/server/src/context.ts:221-243 | in every run, once there is a dense index, exactly one of four holds: it was built from the notes as they are now, a pass over them is queued, a pass over them is at work, or the pass over them failed |
| `DenseQueue.OnePassAtATime` | packages/server/src/context.ts:221-243 | in no run are two embedding passes at work, the warmup's included |
| `DenseQueue.ChangesCoalesce` | packages/server/src/context.ts:216-225 | however many changes arrive, at most two passes are outstanding |
| `DenseQueue.SettledMeansServed` | packages/server/src/context.ts:284-291 | when `settled` resolves nothing is queued or running, and after a finished warmup the dense index was built from the notes as they are served now if and only if the pass over these notes did not fail |
| `DenseQueue.SettledWithoutFailure` | packages/server/src/context.ts:284-291 | in a run in which neither a pass nor the warmup fails, a settled server that wants a dense index has finished its warmup and serves the dense index of its own notes |
| `DenseQueue.SettledWithoutPassFailure` | packages/server/src/context.ts:284-291 | once the warmup has finished it is enough that no pass fails |
| `DenseQueue.OnlyAFailureEndsTheWarmup` | packages/server/src/context.ts:361-395 | in every run a warmup has given up only if building the index failed, never because a change overtook it |
| `DenseQueue.WarmupEnds` | packages/server/src/context.ts:373-382 | from any sound state a warmup under way ends finished, with the index of the served notes, in at most four more of its steps once changes stop and nothing fails |
| `DenseQueue.QueueRunsDry` | packages/server/src/context.ts:216-243 | from any sound state the passes run out, and if one was due or at work on the served notes the index is then theirs |
| `DenseQueue.EveryWaitCanEnd` | packages/server/src/context.ts:284-291 | from any sound state a caller waiting in `settled` is let go in some run without changes and failures, and then the index is that of the served notes if a warmup or a pass over them was due or under way |
| `DenseQueue.FailureStaysStale` | packages/server/src/context.ts:239-241 | the exception is real: a failed pass followed by no change leaves a settled server with the old index |
| `DenseQueue.ChangeHealsFailure` | packages/server/src/context.ts:223-226 | after any run, once there is a dense index, the next change queues a pass |
| `ReloadChain.OneReloadAtATime` | packages/server/src/context.ts:334-342 | in no run do two reloads read at once |
| `ReloadChain.LastEditWins` | packages/server/src/context.ts:335-341 | whatever was on disk when a reload was asked for is served once that reload has ended well, and stays served |
| `ReloadChain.OnlyAnOldReadDrops` | packages/server/src/context.ts:249-266 | an edit that is served now can vanish from what is served in some run if and only if a reload is reading that began before the edit was on disk; otherwise every state of every run from here serves it |
| `ReloadChain.AnAppliedWriteCanVanish` | packages/server/src/context.ts:249-266 | that can happen: a write folded in while a reload is reading is lost from the served notes when the reload lands |
| `Reloading.Compare` | packages/server/src/context.ts:250-259 | `added`, `changed` and `removed` are the numbers of paths new on disk, of another frontmatter or body there, and gone from it |
| `Reloading.RemovedArithmetic` | packages/server/src/context.ts:258 | the subtraction that gives `removed` is exact when paths are unique |
| `Reloading.NothingToDo` | packages/server/src/context.ts:260-263 | all three are zero exactly when disk and served notes agree on every path and fingerprint |
| `Reloading.PrintsAgree` | packages/server/src/context.ts:245-259 | the fingerprints of disk and served notes agree exactly when both hold the same files with the same frontmatter and body |
| `Views.ViewByLabels` | packages/server/src/context.ts:419-456 | two identities with the same labels have the same view but for the identity on it |
| `Views.ViewKeepsLink` | packages/server/src/context.ts:420-428 | a readable note's link has its edge in the view if and only if it resolves among the readable notes or its text, as written, is no hidden note's name |
| `Views.ViewKeepsReference` | packages/server/src/context.ts:420-428 | a frontmatter reference, which is never resolved, has its edge if and only if its text without brackets is no hidden note's name |
| `Views.PathOfAHiddenNoteStays` | packages/server/src/context.ts:414-428 | so a link written as the path of a hidden note stays in the view and in its neighbourhood, although in the whole vault it is the edge to that note |
| `Views.HiddenNotesDoNotShow` | packages/server/src/context.ts:419-433 | without a dense index a view is unchanged when hidden notes change body, links and labels, names kept |
| `Views.HiddenNotesDoNotShowDense` | packages/server/src/context.ts:406-433 | over a dense index of any age a view is unchanged when hidden notes change body, links and labels, now and when they were embedded, as long as no unreadable note answers in the index for a readable one |
| `Views.StaleIndexIsSilent` | packages/server/src/context.ts:406-433 | that condition is exact: over a dense index of any age the view is the same whatever the hidden notes held when they were embedded if and only if no unreadable note answers in the index for a readable one |
| `Views.HiddenNotesDoNotShowCurrent` | packages/server/src/context.ts:406-433 | with unique names and an index of the served notes themselves a view never shows what hidden notes hold |
| `Views.SliceIsOwn` | packages/server/src/context.ts:406-412 | the slice of a dense index of any age is the slice of an index embedded from the readable notes alone, under the same condition and no other |
| `Views.UniqueNamesAnswer` | packages/server/src/context.ts:406-412 | unique names are enough for it when the index is that of the served notes |
| `Views.SeesTheWhole` | packages/server/src/context.ts:197-206 | a scope that holds everything ranks over the served notes and the whole dense index, unsliced |
| `Context.RewrittenNoteShows` | packages/server/src/context.ts:312-332 | the condition can fail with unique names: after a hidden note is rewritten as a readable one, and until the pass lands, its reader ranks over the passages of the hidden version, and two servers that differ only in that version give two views |
| `Context.APublicRewriting` | packages/server/src/context.ts:312-332 | such notes: one without audience and its public rewriting |
| `Views.ClashShowsHiddenNote` | packages/server/src/context.ts:406-412 | without them it fails: a hidden note that comes first puts its passages into the view of a readable namesake |
| `SearchIndex.BuildSearchIndex` | packages/retrieval/src/bm25.ts:44-67 | the loop builds the index in which the first note of a name answers |
| `SearchIndex.UpsertSearchDoc` | packages/retrieval/src/bm25.ts:87-91 | the written note is answered by its own document and every other name as before; upserting a note of a new name into a built index gives the index built with the note appended |
| `SearchIndex.IndexNames` | packages/retrieval/src/bm25.ts:57-66 | the index answers exactly the names of the notes |
| `SearchIndex.IndexFirst` | packages/retrieval/src/bm25.ts:59-63 | with the first note of the name |
| `SearchIndex.UpsertAppended` | packages/retrieval/src/bm25.ts:81-91 | upserting an appended note gives the rebuilt index exactly when its name is new or already answered by the same document |
| `SearchIndex.UpsertInPlace` | packages/retrieval/src/bm25.ts:81-91 | upserting a note rewritten in place, under a name no other note has, gives the rebuilt index |
| `Identity.ScopeKeySeparates` | packages/server/src/identity.ts:126 | for scopes the agents file allows, two identities have one key exactly when they hold the same labels |
| `Identity.CommaConfusesKeys` | packages/server/src/identity.ts:71-74 | without the label grammar they need not: a label with a comma shares a key with two labels |
| `Audience.SilentIsPrivate` | packages/core/src/audience.ts:15-32 | a note without audience is seen only by a scope that sees everything |
| `Audience.PrivateGrantsNothing` | packages/core/src/audience.ts:22-32 | adding `private` to a scope opens no note |
| `Audience.WiderSeesMore` | packages/core/src/audience.ts:27-32 | a scope with more labels sees no less |
| `Audience.SeesByLabels` | packages/core/src/audience.ts:27-44 | what a scope sees depends only on the set of its labels |
| `Status.StatusAware` | packages/retrieval/src/status.ts:20-43 | where no note has a status that weighs less than one, the first `k` hits of the inner ranking; else the first `k` of its best min(max(3k, 20), 100) hits, each with the weight and status of the last note of its name that has one, ordered by score and, among equals, as they came |
| `Status.ByDefault` | packages/retrieval/src/status.ts:14-18 | by default a note is lowered exactly when its status is `quarantine`, `deprecated` or `archived`, to a half, a half and a quarter |
| `Status.DemotedByLast` | packages/retrieval/src/status.ts:21-25 | of several notes of one name that are lowered the last decides |
| `Status.SortIsStable` | packages/retrieval/src/status.ts:39 | the sort is falling and keeps the hits of each score in their old order |
| `Status.DemotionsLower` | packages/retrieval/src/status.ts:21-25 | only weights below one are ever applied |
| `Status.ExhaustedIsExact` | packages/retrieval/src/status.ts:33-40 | when the inner ranking has no more than was fetched, the answer is the exact top `k` of the whole demoted ranking |
| `Status.EnoughPlainIsExact` | packages/retrieval/src/status.ts:33-40 | so it is when `k` of the fetched hits are not demoted |
| `Status.ExactPlace` | packages/retrieval/src/status.ts:33-40 | in general every returned hit that scores at least the last fetched inner score stands in its exact place |
| `Status.NeverMoreThanAHundred` | packages/retrieval/src/status.ts:32-40 | with anything demoted no search returns more than a hundred hits, whatever `k` was asked for |
| `Status.AsManyAsAskedFor` | packages/retrieval/src/status.ts:32-40 | with anything demoted a search returns as many hits as the inner answer to `k` has if and only if `k` or the whole ranking is at most a hundred |
| `Status.AskingForAHundredAndOne` | packages/retrieval/src/status.ts:32-40 | an input that fails it: a hundred and one hits, one archived, all asked for |
| `Chunking.SplitParagraphs` | packages/retrieval/src/chunk.ts:65-89 | the loop gives the passages of the greedy plan, in order, long paragraphs wrapped on their own; what these are is `Passages.SplittingInFull` |
| `Chunking.HardWrap` | packages/retrieval/src/chunk.ts:76-83 | the inner loop gives the trimmed windows of the paragraph and stops when the overlap is smaller than the window |
| `Passages.SplittingInFull` | packages/retrieval/src/chunk.ts:65-89 | one after the other, with nothing between and nothing left, each stretch of the paragraphs is either joined by line breaks into one passage within `maxChars` to which the next paragraph could not be added, or one longer paragraph whose passages are its trimmed windows, a step apart, up to the first that reaches its end |
| `Passages.PlanIsArrangement` | packages/retrieval/src/chunk.ts:75-88 | every paragraph is kept once and in order; each passage fits, each wrapped paragraph is too long for any passage |
| `Passages.FewestPassages` | packages/retrieval/src/chunk.ts:84-85 | no arrangement of the paragraphs, in their order, into groups that fit and wrapped long paragraphs has fewer passages |
| `Passages.NoPassageTooLong` | packages/retrieval/src/chunk.ts:75-88 | no passage is longer than `maxChars` |
| `Passages.WindowsRebuildTheParagraph` | packages/retrieval/src/chunk.ts:78-81 | the untrimmed windows, each but the last without its last `overlapChars` characters, are the paragraph again |
| `Passages.WindowCount` | packages/retrieval/src/chunk.ts:78-81 | window `k` starts `k` steps of `maxChars - overlapChars` from the start, and the number of windows is the least number of steps that with one overlap reaches the end |
| `Passages.WindowTotal` | packages/retrieval/src/chunk.ts:78-81 | that number is ceil((length - overlap) / (maxChars - overlap)) |
| `Passages.WrappingStops` | packages/retrieval/src/chunk.ts:78-81 | on a long paragraph the loop reaches one of its exits if and only if the overlap is smaller than `maxChars` |
| `Passages.WrappingForEver` | packages/retrieval/src/chunk.ts:78-81 | an input on which it does not: five characters, windows of two, an overlap of two |
| `GapStores.GapStore.constructor` | packages/server/src/gaps.ts:186-193 | opening reads back the centroids of exactly the open groups that have one |
| `GapStores.GapStore.FindByKey` | packages/server/src/gaps.ts:361-365 | the open gap of the key that was seen last, none for a key without words |
| `GapStores.GapStore.FindByVector` | packages/server/src/gaps.ts:367-375 | the nearest centroid of the vector's length above the threshold |
| `GapStores.GapStore.BeginSearch` | packages/server/src/gaps.ts:199-206 | the half of a recording before its await: remembers the gap its key finds, changes no table |
| `GapStores.GapStore.FinishSearch` | packages/server/src/gaps.ts:207-237 | the other half: filed under the key's gap, else the vector's, else a new one, refused when both candidate identifiers are taken; the row gains one search, the time and the higher score and keeps the rest, or is new and open with one; the mean takes the vector in with one query more or starts from it; the search has its row; no other row changes |
| `GapStores.GapStore.MarkFollowed` | packages/server/src/gaps.ts:240-246 | counts a search as followed the first time only, in its own row and its group's |
| `GapStores.GapStore.CloseGap` | packages/server/src/gaps.ts:302-308 | closes the row with note and time and drops its centroid and no other, or reports that there is none |
| `GapStores.GapStore.DismissGap` | packages/server/src/gaps.ts:315-321 | the same for a dismissal |
| `Gaps.StepKeepsSound` | packages/server/src/gaps.ts:199-246 | every step, between the halves of any number of recordings, keeps the counters, best scores and centroid weights true to the searches |
| `Gaps.CountersAreTrue` | packages/server/src/gaps.ts:199-246 | in every run from an empty register a gap's `count` is the number of its searches, `followed` the number of those followed, at most `count`, and the counts add up to the searches |
| `Gaps.CentroidsStayOpen` | packages/server/src/gaps.ts:217-221 | in-memory centroids stay with open gaps at every step except two: a recording that finishes with a vector for a gap closed while it waited, and a closing by another process |
| `Gaps.ClosedGapGetsACentroid` | packages/server/src/gaps.ts:302-307 | a run in which the first happens, and the search is filed under the closed gap |
| `Gaps.EndedGapTakesASearch` | packages/server/src/gaps.ts:206-221 | while in-memory centroids stay with open gaps, a search is filed under a gap that is not open if and only if the gap its key found was closed while the recording waited, with or without a vector |
| `Gaps.KeysStayDistinct` | packages/server/src/gaps.ts:222-230 | two open gaps come to share a key exactly when a recording that found none, by key or by vector, starts one although an open gap of its key exists by then |
| `Gaps.OverlappingRecordingsTwin` | packages/server/src/gaps.ts:206-230 | a run in which it happens: two overlapping recordings of one new question, without vectors |
| `Gaps.UndisturbedRecording` | packages/server/src/gaps.ts:199-237 | a recording with nothing between its halves does neither |
| `Following.FollowTracker.RecordSearch` | packages/server/src/gaps.ts:454-459 | the search joins the end of its agent's list, which keeps its last `perAgent`; other agents' lists stay |
| `Following.FollowTracker.NoteRead` | packages/server/src/gaps.ts:462-474 | answers with the search in the window that holds the name and after which every one is in the window and does not, and takes just that one off the list; with none if there is no such search |
| `Following.EarlyBreakAgrees` | packages/server/src/gaps.ts:466-472 | stopping at the first search that is too old finds the newest match exactly when no search that is too old comes after it |
| `Following.ReadFollowsTheNewest` | packages/server/src/gaps.ts:461-474 | with a clock that does not go back a read follows the newest search in the window that holds the name, among all not yet returned, unless that one was forgotten |
| `Following.EachSearchOnce` | packages/server/src/gaps.ts:461 | a search is returned at most as often as it was recorded |
| `Following.NeverMoreThanPerAgent` | packages/server/src/gaps.ts:457 | never more than `perAgent` searches are held |
| `Graph.BuildGraph` | packages/core/src/graph.ts:7-32 | the first note of a name is its node; the edges are those of each note in turn, links resolved to canonical names where they can be |
| `Graph.EdgesInFull` | packages/core/src/graph.ts:15-31 | the edges of the graph are, note by note and with no others, one for each link and then one for each frontmatter reference, in order, from the note's name to the name its link resolves to, else to the text |
| `Graph.BracketsDropped` | packages/core/src/graph.ts:27 | a reference's text is what stands between the brackets, each dropped where it is there, and trimmed |
| `Graph.Neighbors` | packages/core/src/graph.ts:35-49 | the result is exactly the names other than the start joined to it by an undirected walk of at most `depth` edges |
| `Graph.WithinMore` | packages/core/src/graph.ts:38 | more depth reaches no less |
| `Graph.WithinBack` | packages/core/src/graph.ts:41-42 | reaching is symmetric |
| `Graph.NothingBeyond` | packages/core/src/graph.ts:38 | when one more step reaches nothing new, no further step does, so stopping at an empty frontier is sound |
| `Links.NormalizePath` | packages/core/src/links.ts:39-47 | the loop pushes ordinary parts and pops one for each `..` |
| `Links.NormalIdempotent` | packages/core/src/links.ts:38-47 | normalising twice is normalising once |
| `Links.NormalByPrefix` | packages/core/src/links.ts:38-47 | the part before a slash may be normalised first |
| `Resolution.NormalBySegment` | packages/core/src/links.ts:38-47 | a path is normalised a segment at a time: one that names something is kept, `..` takes the last away if there is one, empty ones and `.` are dropped |
| `Resolution.ExtensionDropped` | packages/core/src/links.ts:32-36 | one extension `.md` or `.markdown`, in any case, is dropped and nothing else |
| `Resolution.NamedByItsFile` | packages/core/src/vault.ts:58-63 | a note is called as its frontmatter says, else as its file without `.md` |
| `Links.BuildLinkIndex` | packages/core/src/links.ts:49-68 | the loop builds the three tables note by note |
| `Links.IndexOfIndexes` | packages/core/src/links.ts:49-68 | names and paths are answered by the first note that has them, file names by all that have them, in order, each as often as it is there |
| `Resolution.ResolvesInOrder` | packages/core/src/links.ts:78-120 | over any notes a link leads to the canonical name it spells; else, if written as a path, to the first note of the path it spells from the linking note; else from the root; else to the only note of that file name, or the only one of those in the linking directory; else nowhere |
| `Links.ResolvesToANote` | packages/core/src/links.ts:78-120 | a resolved link is always the canonical name of some note |
| `Links.CanonicalNameWins` | packages/core/src/links.ts:86-88 | a canonical name resolves to itself from anywhere |
| `Links.ClimbingLinkResolves` | packages/core/src/links.ts:92-98 | the link that climbs with `../` from any note to the root and then writes another note's file path resolves to that note, when the text is no canonical name, segments are ordinary and paths differ ignoring case |
| `Links.RelativeResolves` | packages/core/src/links.ts:92-98 | a link resolves from the linking directory if and only if it is written as a path and some note's lowered path is the text looked up |
| `Links.CapitalsAreNeverFound` | packages/core/src/links.ts:92-98 | so a text that keeps a capital letter of the linking directory is never found |
| `Links.RelativeFindsItsTarget` | packages/core/src/links.ts:92-98 | where the text looked up is a note's path, case apart, and paths differ ignoring case, it is found if and only if no capital is left in it |
| `Links.CapitalDirectoryIsSkipped` | packages/core/src/links.ts:92-102 | from a directory whose name has a capital, a link to a file beside the linking note takes the file of that name at the root instead |
| `Links.NotesBesideAcme` | packages/core/src/links.ts:92-102 | such a vault: `[[./notes]]` in `Projects/acme.md` reaches `notes.md` although `Projects/notes.md` is there |
| `Watching.RunsAreSafe` | packages/server/src/watch.ts:54-95 | in every run at most one `onChange` is under way, there are no more calls than edits, and while open a changed path has a live timer or a running call that is to be followed by another |
| `Watching.NoEditLost` | packages/server/src/watch.ts:34-38 | after a change, when the open watcher has no timer and no call left, some call begun since was given the path |
| `Watching.BurstIsOneCall` | packages/server/src/watch.ts:34-38 | while no live timer is forgotten, changes in a row leave one live timer, and on an open, idle watcher its firing begins one call with every path of them and all that was pending |
| `Watching.ClosedIsQuiet` | packages/server/src/watch.ts:62 | once closed no further call begins |
| `Watching.CallsHaveWork` | packages/server/src/watch.ts:34-38 | as long as the end of a call forgets no live timer, every call is given a change |
| `Watching.ACallForNothing` | packages/server/src/watch.ts:60-77 | otherwise a call may be given none: a run that ends with an empty list |
| `Watching.ToMidway` | packages/server/src/watch.ts:60-87 | the state that run goes on from is reached from the start |
| `Watching.PathIsKept` | packages/server/src/watch.ts:60-87 | whatever happens, a path that waits still waits or a call begun since was given it |
| `Watching.EmptyCallExactly` | packages/server/src/watch.ts:60-87 | from a safe open state and without a further edit a call with an empty list can still come if and only if the live timers and the call asked for outnumber the work: one if a path is pending, else none |
| `Watching.VaultWatcher.Changed` | packages/server/src/watch.ts:80-87 | a relevant name joins the pending ones and replaces the timer known by a new one, anything else changes nothing |
| `Watching.VaultWatcher.CallEnds` | packages/server/src/watch.ts:71-77 | at the end of a call another begins with all that is pending exactly when it was asked for and the watcher is open |
| `Tasks.EndedStaysAsItIs` | packages/server/src/tasks.ts:95-118 | a task that has ended is shown unchanged whatever resolves, rejects, cancels or updates come later |
| `Tasks.EndsAtMostOnce` | packages/server/src/tasks.ts:103-118 | in every run a task goes from not ended to ended at most once |
| `Tasks.NothingWaitsForInput` | packages/server/src/tasks.ts:144-157 | in every run no task waits for input, so an update never changes anything, and a task still working has its work under way |
| `Tasks.GetSeesOwnTasksOnly` | packages/server/src/tasks.ts:122-128 | whatever other identities do in between, `get` answers as if they had done nothing |
| `Tasks.SweepShowsInCancel` | packages/server/src/tasks.ts:134-137 | over any run an owner can still cancel its task if and only if it could before and no `get` or `size`, anybody's, has come at a time by which the task had expired |
| `Tasks.AnothersGetTakesTheTask` | packages/server/src/tasks.ts:122-137 | such a run: b's `get` takes away the task that a could have cancelled |
| `Tasks.HeldUntilSwept` | packages/server/src/tasks.ts:170-175 | whoever does what, a record stays in the store exactly until the first sweep that finds it expired |
| `Tasks.TimeToLiveCountsFromCreation` | packages/server/src/tasks.ts:97 | the time to live counts from creation: a task is dropped at the first sweep that comes that long after it was created, whether its work has ended or not |
| `Tasks.AnAnswerNobodySees` | packages/server/src/tasks.ts:170-175 | a task dropped at work: its answer comes and is never shown to anybody |
| `Tasks.TaskStore.CreateTask` | packages/server/src/tasks.ts:85-120 | a new working record of its owner that expires its time to live after now, and the view of it; nothing else changes |
| `Tasks.TaskStore.WorkResolves` | packages/server/src/tasks.ts:102-109 | completes the task with its outcome unless it has ended; other records stay |
| `Tasks.TaskStore.WorkRejects` | packages/server/src/tasks.ts:111-117 | fails it with code -32603 and the reason, likewise |
| `Tasks.TaskStore.Sweep` | packages/server/src/tasks.ts:170-175 | drops exactly the records whose expiry has come |
| `Tasks.TaskStore.GetTask` | packages/server/src/tasks.ts:122-128 | sweeps, then shows the task to its owner alone |
| `Tasks.TaskStore.CancelTask` | packages/server/src/tasks.ts:134-142 | shows the owner a task that has ended, cancelled by the caller now or ended before and then unchanged but for the flag; other records stay |
| `Tasks.TaskStore.UpdateTask` | packages/server/src/tasks.ts:150-157 | tells not-found from not-waiting, and in a sound store never succeeds |
| `Tasks.TaskStore.HowMany` | packages/server/src/tasks.ts:160-163 | counts what survives the sweep |

## Left out

- Order of walking: maps and sets are walked in any order, so results hold for every order and the fixed one of the source is one of them; the order of parts, members, hubs and reports is not modelled.
- Communities.Communities: does not model hubs, maps of content, gap weights, `excluded` and the order of members and reports, because they are lookups and sorts over numbers the model has.
- The two roundings for display.
- Floating point: sums, gains and scores are exact reals, so rounding is not modelled; square root and cosine are parameters.
- Characters: lower-casing covers the letters A to Z, trimming covers space, tab, line feed and carriage return, sorting is by code unit.
- `cleanBody`, cutting text at blank lines, headers, chunk identifiers and `maxPassages` in chunk.ts: paragraphs come in as a list of trimmed, non-empty strings.
- Chunking.SplitParagraphs: where a paragraph is longer than `maxChars`, requires the overlap to be smaller, because otherwise the loop does not end, as `Passages.WrappingStops` says.
- Chunking.HardWrap: requires the overlap to be smaller than `maxChars`, for the same reason.
- MiniSearch scoring, embedding and fusion: the lexical index is a map from name to document, the dense index is identified with the notes it was built from, and rankers with what they were given.
- Disk, YAML, SQLite, HTTP, git and `fs.watch`: their effect is a parameter, a map or a step. `loadVault` returns any list of notes with unique paths.
- Context.BrainContext.constructor: files have unique paths, as on any disk; a vault with one path twice is not modelled.
- Frontmatter: only name, status, audience and the three link lists, each missing or well formed; which notes are maps and therefore held out of the community graph comes in as a set.
- Cutting the links out of a body: a note's links come with it, so that equal bodies have equal links is not part of the model.
- Several callers waiting in `settled` at once: one is modelled, the others do not touch the state.
- Random identifiers: a new search or task identifier is one not in use. The hashed gap identifiers are not assumed distinct.
- A synchronous throw of `onChange` or of a task's work, which leaves the modelled code.
- Each method reads the clock once, where the source may read it twice in a row.
- Tasks: records are values under their identifiers, kept after a sweep because the work's callbacks still reach them, in place of shared record objects.
- `setOutcome`, feedback, lists of gaps and the golden-set entry in gaps.ts; `identityForToken` and the other checks of `loadAgents`; `degreeMap`.
- The relevance test of watch.ts is a parameter of the watcher.
- Redaction, lint rules, command line, HTML apps, OAuth, write confirmation, promotion, duplicates, evaluation metrics and rank fusion: guards or easier members.
- Timers and promises are never forced to fire; a step that can happen may stay undone.
