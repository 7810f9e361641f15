/** The gap register of packages/server/src/gaps.ts. */
module Gaps {
  // One row for each question group, one row for each search. Recording a search
  // is suspended once, while the query is embedded, so anything may happen to the
  // tables between its two halves. A run is any order of the halves of any number
  // of recordings, of follow-ups, closings and dismissals.

  import opened Sums
  import opened Text

  type Vec = seq<real>

  datatype Status = Open | Closed | Dismissed

  datatype Gap = Gap(
    query: string, key: string, centroid: Option<Vec>, count: nat, followed: nat, topScore: Option<real>,
    firstSeen: nat, lastSeen: nat, status: Status, note: Option<string>, closedAt: Option<nat>)

  datatype Search = Search(gapId: string, ts: nat, agent: string, topScore: Option<real>, followed: bool)

  /** A group's running mean, in memory. */
  datatype Centroid = Centroid(vec: Vec, count: nat)

  /** A recording that waits for its embedding, with the gap its key found. */
  datatype Call = Call(query: string, key: string, ts: nat, agent: string, topScore: Option<real>, found: Option<string>)

  datatype Register = Register(
    gaps: map<string, Gap>, searches: map<string, Search>, centroids: map<string, Centroid>, calls: map<nat, Call>)

  /** Hashing, the similarity of two vectors of one length, the normalised running mean. */
  datatype Config = Config(
    idOf: string -> string, idAt: (string, nat) -> string,
    cosine: (Vec, Vec) -> real, blend: (Centroid, Vec) -> Vec, threshold: real)

  // ---- the steps

  /** What a query's key finds: the open gap of that key seen last, never for a key without words. */
  ghost predicate KeyMatch(gaps: map<string, Gap>, key: string, found: Option<string>) {
    match found
    case None => key == "" || forall id :: id in gaps ==> !SameKey(gaps[id], key)
    case Some(id) =>
      key != "" && id in gaps && SameKey(gaps[id], key)
      && forall other :: other in gaps && SameKey(gaps[other], key) ==> gaps[other].lastSeen <= gaps[id].lastSeen
  }

  predicate SameKey(gap: Gap, key: string) {
    gap.key == key && gap.status == Open
  }

  predicate Near(cfg: Config, c: Centroid, vec: Vec) {
    |c.vec| == |vec| && cfg.cosine(vec, c.vec) >= cfg.threshold
  }

  /** What a query's vector finds: the nearest centroid, if one is near enough. */
  ghost predicate VectorMatch(cfg: Config, centroids: map<string, Centroid>, vec: Option<Vec>, found: Option<string>) {
    match found
    case None => vec.None? || forall id :: id in centroids ==> !Near(cfg, centroids[id], vec.value)
    case Some(id) =>
      vec.Some? && id in centroids && Near(cfg, centroids[id], vec.value)
      && forall other :: other in centroids && Near(cfg, centroids[other], vec.value) ==>
        cfg.cosine(vec.value, centroids[other].vec) <= cfg.cosine(vec.value, centroids[id].vec)
  }

  function Best(a: Option<real>, b: Option<real>): real {
    var x := if a.Some? then a.value else 0.0;
    var y := if b.Some? then b.value else 0.0;
    if x >= y then x else y
  }

  function Fold(cfg: Config, centroids: map<string, Centroid>, id: string, vec: Vec): Centroid {
    if id !in centroids || |centroids[id].vec| != |vec| then Centroid(vec, 1)
    else Centroid(cfg.blend(centroids[id], vec), centroids[id].count + 1)
  }

  /** One more search in a group that exists. */
  function Joined(cfg: Config, r: Register, id: string, k: Call, vec: Option<Vec>): Register
    requires id in r.gaps
  {
    var gap := r.gaps[id].(count := r.gaps[id].count + 1, lastSeen := k.ts, topScore := Some(Best(r.gaps[id].topScore, k.topScore)));
    match vec
    case None => r.(gaps := r.gaps[id := gap])
    case Some(v) =>
      var c := Fold(cfg, r.centroids, id, v);
      r.(gaps := r.gaps[id := gap.(centroid := Some(c.vec))], centroids := r.centroids[id := c])
  }

  /** The row id of a new group; a key that had a row before gets one that depends on the time too. */
  function NewId(cfg: Config, gaps: map<string, Gap>, k: Call): string {
    var id := cfg.idOf(if k.key != "" then k.key else k.query);
    if id in gaps then cfg.idAt(k.key, k.ts) else id
  }

  function Started(r: Register, id: string, k: Call, vec: Option<Vec>): Register {
    r.(gaps := r.gaps[id := Gap(k.query, k.key, vec, 1, 0, k.topScore, k.ts, k.ts, Open, None, None)],
       centroids := if vec.Some? then r.centroids[id := Centroid(vec.value, 1)] else r.centroids)
  }

  /** The group a finished recording is filed under: its key's, else its vector's, else a new one, else none. */
  function Target(cfg: Config, r: Register, k: Call, near: Option<string>): Option<string> {
    if k.found.Some? then k.found
    else if near.Some? then near
    else if NewId(cfg, r.gaps, k) in r.gaps then None
    else Some(NewId(cfg, r.gaps, k))
  }

  function Grouped(cfg: Config, r: Register, id: string, k: Call, vec: Option<Vec>): Register {
    if id in r.gaps then Joined(cfg, r, id, k, vec) else Started(r, id, k, vec)
  }

  function Filed(cfg: Config, r: Register, id: string, k: Call, vec: Option<Vec>, searchId: string): Register {
    var g := Grouped(cfg, r, id, k, vec);
    g.(searches := g.searches[searchId := Search(id, k.ts, k.agent, k.topScore, false)])
  }

  datatype Event =
    | Begin(call: nat, asked: Call)
    | Finish(done: nat, vec: Option<Vec>, near: Option<string>, searchId: string)
    | Follow(read: string)
    | Close(closing: string, note: string, at: nat)
    | Dismiss(dismissing: string, when: nat)
      // the same, done to the tables by a process that has the file open too
    | CloseElsewhere(there: string, byNote: string, time: nat)
    | Reopen

  /** What may happen next. A new search id is a fresh one. */
  ghost predicate Possible(cfg: Config, r: Register, e: Event) {
    match e
    case Begin(call, asked) => call !in r.calls && KeyMatch(r.gaps, asked.key, asked.found)
    case Finish(call, vec, near, searchId) =>
      call in r.calls && searchId !in r.searches
      && (r.calls[call].found.None? ==> VectorMatch(cfg, r.centroids, vec, near))
    case _ => true
  }

  function Without(calls: map<nat, Call>, call: nat): map<nat, Call> {
    map c | c in calls && c != call :: calls[c]
  }

  function Ended(r: Register, id: string, gap: Gap): Register {
    r.(gaps := r.gaps[id := gap], centroids := map i | i in r.centroids && i != id :: r.centroids[i])
  }

  /** The centroids read back when the file is opened. */
  function Loaded(gaps: map<string, Gap>): map<string, Centroid> {
    map id | id in gaps && gaps[id].status == Open && gaps[id].centroid.Some? :: Centroid(gaps[id].centroid.value, gaps[id].count)
  }

  function Apply(cfg: Config, r: Register, e: Event): Register
    requires e.Finish? ==> e.done in r.calls
  {
    match e
    case Begin(call, asked) => r.(calls := r.calls[call := asked])
    case Finish(call, vec, near, searchId) =>
      var k := r.calls[call];
      var rest := r.(calls := Without(r.calls, call));
      var target := Target(cfg, r, k, near);
      if target.None? then rest else Filed(cfg, rest, target.value, k, vec, searchId)
    case Follow(s) =>
      if s in r.searches && !r.searches[s].followed then
        var id := r.searches[s].gapId;
        r.(searches := r.searches[s := r.searches[s].(followed := true)],
           gaps := if id in r.gaps then r.gaps[id := r.gaps[id].(followed := r.gaps[id].followed + 1)] else r.gaps)
      else r
    case Close(id, note, at) =>
      if id in r.gaps then Ended(r, id, r.gaps[id].(status := Closed, note := Some(note), closedAt := Some(at))) else r
    case Dismiss(id, at) =>
      if id in r.gaps then Ended(r, id, r.gaps[id].(status := Dismissed, closedAt := Some(at))) else r
    case CloseElsewhere(id, note, at) =>
      if id in r.gaps then r.(gaps := r.gaps[id := r.gaps[id].(status := Closed, note := Some(note), closedAt := Some(at))]) else r
    case Reopen => r.(centroids := Loaded(r.gaps), calls := map[])
  }

  // ---- the counters

  ghost function FiledUnder(searches: map<string, Search>, id: string): set<string> {
    set s | s in searches && searches[s].gapId == id
  }

  ghost function FollowedUnder(searches: map<string, Search>, id: string): set<string> {
    set s | s in searches && searches[s].gapId == id && searches[s].followed
  }

  /** A group's counters are what its searches say. */
  ghost predicate Counted(gap: Gap, searches: map<string, Search>, id: string) {
    gap.count == |FiledUnder(searches, id)| && gap.followed == |FollowedUnder(searches, id)|
  }

  ghost predicate AllCounted(gaps: map<string, Gap>, searches: map<string, Search>) {
    forall id :: id in gaps ==> Counted(gaps[id], searches, id)
  }

  /** A group's best score is at least that of every search in it. */
  ghost predicate Scored(gaps: map<string, Gap>, s: Search) {
    s.gapId in gaps && (s.topScore.Some? ==> gaps[s.gapId].topScore.Some? && gaps[s.gapId].topScore.value >= s.topScore.value)
  }

  ghost predicate AllScored(gaps: map<string, Gap>, searches: map<string, Search>) {
    forall s :: s in searches ==> Scored(gaps, searches[s])
  }

  /** A centroid is some group's, and never weighs more queries than the group has. */
  ghost predicate Weighed(gaps: map<string, Gap>, centroids: map<string, Centroid>) {
    forall id :: id in centroids ==> id in gaps && centroids[id].count <= gaps[id].count
  }

  ghost predicate CallsKnown(gaps: map<string, Gap>, calls: map<nat, Call>) {
    forall c :: c in calls && calls[c].found.Some? ==> calls[c].found.value in gaps
  }

  ghost predicate Sound(r: Register) {
    AllCounted(r.gaps, r.searches) && AllScored(r.gaps, r.searches) && Weighed(r.gaps, r.centroids) && CallsKnown(r.gaps, r.calls)
  }

  lemma FileOne(searches: map<string, Search>, s: string, row: Search, id: string)
    requires s !in searches && !row.followed
    ensures |FiledUnder(searches[s := row], id)| == |FiledUnder(searches, id)| + (if row.gapId == id then 1 else 0)
    ensures |FollowedUnder(searches[s := row], id)| == |FollowedUnder(searches, id)|
  {
    hide FiledUnder, FollowedUnder;
    FileMembers(searches, s, row, id);
  }

  lemma FileMembers(searches: map<string, Search>, s: string, row: Search, id: string)
    requires s !in searches && !row.followed
    ensures s !in FiledUnder(searches, id)
    ensures FiledUnder(searches[s := row], id) == if row.gapId == id then FiledUnder(searches, id) + {s} else FiledUnder(searches, id)
    ensures FollowedUnder(searches[s := row], id) == FollowedUnder(searches, id)
  {}

  lemma FollowOne(searches: map<string, Search>, s: string, id: string)
    requires s in searches && !searches[s].followed
    ensures |FiledUnder(searches[s := searches[s].(followed := true)], id)| == |FiledUnder(searches, id)|
    ensures |FollowedUnder(searches[s := searches[s].(followed := true)], id)|
         == |FollowedUnder(searches, id)| + (if searches[s].gapId == id then 1 else 0)
  {
    hide FiledUnder, FollowedUnder;
    FollowMembers(searches, s, id);
  }

  lemma FollowMembers(searches: map<string, Search>, s: string, id: string)
    requires s in searches && !searches[s].followed
    ensures s !in FollowedUnder(searches, id)
    ensures FiledUnder(searches[s := searches[s].(followed := true)], id) == FiledUnder(searches, id)
    ensures FollowedUnder(searches[s := searches[s].(followed := true)], id)
         == if searches[s].gapId == id then FollowedUnder(searches, id) + {s} else FollowedUnder(searches, id)
  {}

  lemma NothingFiled(gaps: map<string, Gap>, searches: map<string, Search>, id: string)
    requires AllScored(gaps, searches) && id !in gaps
    ensures |FiledUnder(searches, id)| == 0 && |FollowedUnder(searches, id)| == 0
  {
    assert FiledUnder(searches, id) == {};
    assert FollowedUnder(searches, id) == {};
  }

  lemma FiledKeepsCounts(cfg: Config, r: Register, id: string, k: Call, vec: Option<Vec>, searchId: string)
    requires Sound(r) && searchId !in r.searches
    ensures AllCounted(Filed(cfg, r, id, k, vec, searchId).gaps, Filed(cfg, r, id, k, vec, searchId).searches)
  {
    hide FiledUnder, FollowedUnder, AllScored, Weighed, CallsKnown, Fold, Best;
    var row := Search(id, k.ts, k.agent, k.topScore, false);
    var after := Filed(cfg, r, id, k, vec, searchId);
    assert after.searches == r.searches[searchId := row];
    if id !in r.gaps { NothingFiled(r.gaps, r.searches, id); }
    forall other | other in after.gaps ensures Counted(after.gaps[other], after.searches, other) {
      FileOne(r.searches, searchId, row, other);
    }
  }

  lemma FiledKeepsScores(cfg: Config, r: Register, id: string, k: Call, vec: Option<Vec>, searchId: string)
    requires Sound(r) && searchId !in r.searches
    ensures AllScored(Filed(cfg, r, id, k, vec, searchId).gaps, Filed(cfg, r, id, k, vec, searchId).searches)
  {
    hide AllCounted, Weighed, CallsKnown, Fold;
  }

  lemma FiledKeepsWeights(cfg: Config, r: Register, id: string, k: Call, vec: Option<Vec>, searchId: string)
    requires Sound(r) && searchId !in r.searches
    ensures Weighed(Filed(cfg, r, id, k, vec, searchId).gaps, Filed(cfg, r, id, k, vec, searchId).centroids)
    ensures CallsKnown(Filed(cfg, r, id, k, vec, searchId).gaps, Filed(cfg, r, id, k, vec, searchId).calls)
  {
    hide AllCounted, AllScored, Best;
  }

  lemma FollowKeepsSound(cfg: Config, r: Register, s: string)
    requires Sound(r)
    ensures Sound(Apply(cfg, r, Follow(s)))
  {
    hide FiledUnder, FollowedUnder;
    var after := Apply(cfg, r, Follow(s));
    if s in r.searches && !r.searches[s].followed {
      assert Scored(r.gaps, r.searches[s]);
      forall id | id in after.gaps ensures Counted(after.gaps[id], after.searches, id) {
        FollowOne(r.searches, s, id);
      }
    }
  }

  lemma LoadedIsWeighed(gaps: map<string, Gap>)
    ensures Weighed(gaps, Loaded(gaps))
  {}

  /** Every step keeps the counters true, whatever else is under way. */
  lemma StepKeepsSound(cfg: Config, r: Register, e: Event)
    requires Sound(r) && Possible(cfg, r, e)
    ensures Sound(Apply(cfg, r, e))
  {
    match e {
      case Finish(call, vec, near, searchId) => FinishKeepsSound(cfg, r, e);
      case Follow(s) => FollowKeepsSound(cfg, r, s);
      case Begin(call, asked) => BeginKeepsSound(cfg, r, call, asked);
      case Reopen => LoadedIsWeighed(r.gaps);
      case _ => EndKeepsSound(cfg, r, e);
    }
  }

  lemma BeginKeepsSound(cfg: Config, r: Register, call: nat, asked: Call)
    requires Sound(r) && Possible(cfg, r, Begin(call, asked))
    ensures Sound(Apply(cfg, r, Begin(call, asked)))
  {
    hide AllCounted, AllScored, Weighed;
  }

  lemma EndKeepsSound(cfg: Config, r: Register, e: Event)
    requires Sound(r) && (e.Close? || e.Dismiss? || e.CloseElsewhere?)
    ensures Sound(Apply(cfg, r, e))
  {
    hide FiledUnder, FollowedUnder;
  }

  lemma FinishKeepsSound(cfg: Config, r: Register, e: Event)
    requires Sound(r) && e.Finish? && Possible(cfg, r, e)
    ensures Sound(Apply(cfg, r, e))
  {
    hide AllCounted, AllScored, Weighed, Filed, Target, VectorMatch;
    var rest := r.(calls := Without(r.calls, e.done));
    assert Sound(rest);
    var target := Target(cfg, r, r.calls[e.done], e.near);
    if target.Some? {
      FiledKeepsCounts(cfg, rest, target.value, r.calls[e.done], e.vec, e.searchId);
      FiledKeepsScores(cfg, rest, target.value, r.calls[e.done], e.vec, e.searchId);
      FiledKeepsWeights(cfg, rest, target.value, r.calls[e.done], e.vec, e.searchId);
    }
  }

  // ---- runs

  ghost predicate Run(cfg: Config, r: Register, events: seq<Event>)
    decreases |events|
  {
    events == [] || (Possible(cfg, r, events[0]) && Run(cfg, Apply(cfg, r, events[0]), events[1..]))
  }

  ghost function After(cfg: Config, r: Register, events: seq<Event>): Register
    requires Run(cfg, r, events)
    decreases |events|
  {
    if events == [] then r else After(cfg, Apply(cfg, r, events[0]), events[1..])
  }

  const EMPTY := Register(map[], map[], map[], map[])

  lemma PossibleIsReady(cfg: Config, r: Register, e: Event)
    requires Possible(cfg, r, e)
    ensures e.Finish? ==> e.done in r.calls
  {}

  lemma {:induction false} RunKeepsSound(cfg: Config, r: Register, events: seq<Event>)
    requires Sound(r) && Run(cfg, r, events)
    ensures Sound(After(cfg, r, events))
    decreases |events|
  {
    hide Sound, Possible, Apply;
    if events != [] {
      PossibleIsReady(cfg, r, events[0]);
      StepKeepsSound(cfg, r, events[0]);
      RunKeepsSound(cfg, Apply(cfg, r, events[0]), events[1..]);
    }
  }

  ghost function CountOf(gaps: map<string, Gap>): string -> real {
    id => if id in gaps then gaps[id].count as real else 0.0
  }

  ghost function GapOf(searches: map<string, Search>): string -> string {
    s => if s in searches then searches[s].gapId else ""
  }

  ghost function One(): string -> real { s => 1.0 }

  lemma CountIsColumn(r: Register, id: string)
    requires Sound(r) && id in r.gaps
    ensures CountOf(r.gaps)(id) == RowSums(r.searches.Keys, Labelled(GapOf(r.searches), One()))(id)
  {
    hide Sum, AllScored, Weighed, CallsKnown;
    assert Counted(r.gaps[id], r.searches, id);
    var f := Row(Labelled(GapOf(r.searches), One()), id);
    var filed := FiledUnder(r.searches, id);
    SumSupport(filed, r.searches.Keys, f);
    SumOnes(filed, f);
  }

  /** The counts add up to the searches recorded. */
  lemma CountsAddUp(r: Register)
    requires Sound(r)
    ensures Sum(r.gaps.Keys, CountOf(r.gaps)) == |r.searches| as real
  {
    hide Sum, AllCounted, Weighed, CallsKnown;
    var grid := Labelled(GapOf(r.searches), One());
    forall id | id in r.gaps.Keys ensures CountOf(r.gaps)(id) == RowSums(r.searches.Keys, grid)(id) {
      CountIsColumn(r, id);
    }
    SumEq(r.gaps.Keys, CountOf(r.gaps), RowSums(r.searches.Keys, grid));
    forall s | s in r.searches.Keys ensures GapOf(r.searches)(s) in r.gaps.Keys {
      assert Scored(r.gaps, r.searches[s]);
    }
    SumByLabel(r.searches.Keys, r.gaps.Keys, GapOf(r.searches), One());
    SumOnes(r.searches.Keys, One());
    assert |r.searches.Keys| == |r.searches|;
  }

  lemma FollowedWithinCount(r: Register, id: string)
    requires Sound(r) && id in r.gaps
    ensures r.gaps[id].followed <= r.gaps[id].count
  {
    assert Counted(r.gaps[id], r.searches, id);
    assert FollowedUnder(r.searches, id) <= FiledUnder(r.searches, id);
    SubsetSmaller(FollowedUnder(r.searches, id), FiledUnder(r.searches, id));
  }

  lemma {:induction false} SubsetSmaller<T>(a: set<T>, b: set<T>)
    requires a <= b
    ensures |a| <= |b|
  {
    assert b == a + (b - a);
  }

  /**
    In every run from an empty register, however recordings interleave: a group's
    count is the number of searches filed under it, `followed` the number of those
    that were followed, at most the count, and the counts add up to the searches.
   */
  lemma CountersAreTrue(cfg: Config, events: seq<Event>)
    requires Run(cfg, EMPTY, events)
    ensures var r := After(cfg, EMPTY, events);
            && (forall id :: id in r.gaps ==> Counted(r.gaps[id], r.searches, id) && r.gaps[id].followed <= r.gaps[id].count)
            && Sum(r.gaps.Keys, CountOf(r.gaps)) == |r.searches| as real
  {
    hide Sum, Counted, Apply, Possible;
    assert Sound(EMPTY);
    RunKeepsSound(cfg, EMPTY, events);
    var r := After(cfg, EMPTY, events);
    CountsAddUp(r);
    forall id | id in r.gaps ensures r.gaps[id].followed <= r.gaps[id].count {
      FollowedWithinCount(r, id);
    }
  }

  // ---- centroids of groups that have ended

  ghost predicate OnlyOpen(r: Register) {
    forall id :: id in r.centroids ==> id in r.gaps && r.gaps[id].status == Open
  }

  /**
    The step leaves a centroid for a group that has ended: a recording finishes with a
    vector although the group its key found was closed while it waited, or the
    group is closed through another process.
   */
  predicate Strays(r: Register, e: Event) {
    match e
    case Finish(call, vec, _, _) =>
      vec.Some? && call in r.calls && r.calls[call].found.Some?
      && r.calls[call].found.value in r.gaps && r.gaps[r.calls[call].found.value].status != Open
    case CloseElsewhere(id, _, _) => id in r.centroids
    case _ => false
  }

  lemma FinishStrays(cfg: Config, r: Register, e: Event)
    requires Sound(r) && OnlyOpen(r) && e.Finish? && Possible(cfg, r, e)
    ensures OnlyOpen(Apply(cfg, r, e)) <==> !Strays(r, e)
  {
    hide AllCounted, AllScored, Weighed, NewId, Best;
    var after := Apply(cfg, r, e);
    var target := Target(cfg, r, r.calls[e.done], e.near);
    if target.Some? {
      FiledCentroids(cfg, r.(calls := Without(r.calls, e.done)), target.value, r.calls[e.done], e.vec, e.searchId);
      if Strays(r, e) {
        assert target.value in after.centroids;
      }
    }
  }

  /** Filing touches the centroid and the status of its own group only, and keeps the status. */
  lemma FiledCentroids(cfg: Config, r: Register, id: string, k: Call, vec: Option<Vec>, searchId: string)
    ensures var after := Filed(cfg, r, id, k, vec, searchId);
            && after.centroids.Keys == r.centroids.Keys + (if vec.Some? then {id} else {})
            && after.gaps.Keys == r.gaps.Keys + {id}
            && (forall other :: other in r.gaps ==> after.gaps[other].status == r.gaps[other].status && after.gaps[other].key == r.gaps[other].key)
            && (id !in r.gaps ==> after.gaps[id].status == Open && after.gaps[id].key == k.key)
  {
    hide Fold, Best;
  }

  /** In-memory centroids stay with open groups at every step except those two, and at those never. */
  lemma CentroidsStayOpen(cfg: Config, r: Register, e: Event)
    requires Sound(r) && OnlyOpen(r) && Possible(cfg, r, e)
    ensures OnlyOpen(Apply(cfg, r, e)) <==> !Strays(r, e)
  {
    match e {
      case Finish(_, _, _, _) => FinishStrays(cfg, r, e);
      case CloseElsewhere(id, note, at) =>
        if id in r.centroids {
          assert id in Apply(cfg, r, e).centroids;
        }
      case _ =>
    }
  }

  // ---- searches filed under groups that have ended

  /** The recording's key had found a group, and that has ended while the recording waited. */
  predicate Overtaken(r: Register, e: Event) {
    && e.Finish? && e.done in r.calls && r.calls[e.done].found.Some?
    && r.calls[e.done].found.value in r.gaps && r.gaps[r.calls[e.done].found.value].status != Open
  }

  /** The step files a search under a group that is not open. */
  predicate FiledUnderEnded(cfg: Config, r: Register, e: Event)
    requires e.Finish? && e.done in r.calls
  {
    var target := Target(cfg, r, r.calls[e.done], e.near);
    var after := Apply(cfg, r, e);
    target.Some? && target.value in after.gaps && after.gaps[target.value].status != Open
  }

  /** While centroids stay with open groups, a search is filed under one that has ended exactly when its recording was overtaken, with or without a vector. */
  lemma EndedGapTakesASearch(cfg: Config, r: Register, e: Event)
    requires Sound(r) && OnlyOpen(r) && e.Finish? && Possible(cfg, r, e)
    ensures FiledUnderEnded(cfg, r, e) <==> Overtaken(r, e)
  {
    hide AllCounted, AllScored, Weighed, NewId, Best, Filed;
    var k := r.calls[e.done];
    var target := Target(cfg, r, k, e.near);
    if target.Some? {
      FiledCentroids(cfg, r.(calls := Without(r.calls, e.done)), target.value, k, e.vec, e.searchId);
    }
  }

  // ---- one open group for each key

  ghost predicate DistinctKeys(gaps: map<string, Gap>) {
    forall a, b :: a in gaps && b in gaps && a != b && gaps[a].status == Open && gaps[b].status == Open ==>
      gaps[a].key == "" || gaps[a].key != gaps[b].key
  }

  /** A recording that found no group, by key or by vector, starts one, and by now an open group of its key exists. */
  ghost predicate Twins(cfg: Config, r: Register, e: Event) {
    && e.Finish? && e.done in r.calls
    && var k := r.calls[e.done];
       k.found.None? && e.near.None? && k.key != "" && NewId(cfg, r.gaps, k) !in r.gaps
       && exists id :: id in r.gaps && SameKey(r.gaps[id], k.key)
  }

  lemma FinishTwins(cfg: Config, r: Register, e: Event)
    requires Sound(r) && DistinctKeys(r.gaps) && e.Finish? && Possible(cfg, r, e)
    ensures DistinctKeys(Apply(cfg, r, e).gaps) <==> !Twins(cfg, r, e)
  {
    hide AllCounted, AllScored, NewId, Best, Filed;
    var k := r.calls[e.done];
    var after := Apply(cfg, r, e);
    var target := Target(cfg, r, k, e.near);
    if target.Some? {
      FiledCentroids(cfg, r.(calls := Without(r.calls, e.done)), target.value, k, e.vec, e.searchId);
      if Twins(cfg, r, e) {
        var id :| id in r.gaps && SameKey(r.gaps[id], k.key);
        assert after.gaps[id].key == after.gaps[target.value].key;
      }
    }
  }

  /** Two open groups come to share a key exactly when a recording that neither its key nor its vector found a group for starts one of a key that has an open group by now. */
  lemma KeysStayDistinct(cfg: Config, r: Register, e: Event)
    requires Sound(r) && DistinctKeys(r.gaps) && Possible(cfg, r, e)
    ensures DistinctKeys(Apply(cfg, r, e).gaps) <==> !Twins(cfg, r, e)
  {
    hide Sound;
    if e.Finish? { FinishTwins(cfg, r, e); }
  }

  /** A recording with nothing in between neither strays nor twins. */
  lemma UndisturbedRecording(cfg: Config, r: Register, call: nat, asked: Call, vec: Option<Vec>, near: Option<string>, searchId: string)
    requires Run(cfg, r, [Begin(call, asked), Finish(call, vec, near, searchId)])
    ensures var begun := Apply(cfg, r, Begin(call, asked));
            !Strays(begun, Finish(call, vec, near, searchId)) && !Twins(cfg, begun, Finish(call, vec, near, searchId))
  {
    assert Possible(cfg, r, Begin(call, asked));
  }

  // ---- a run in which both happen

  /** One identifier for the plain hash, another for the dated one, and vectors that are all alike. */
  function Sample(): Config {
    Config(key => "g", (key, ts) => "h", (a, b) => 1.0, (c, v) => v, 0.9)
  }

  function Asking(found: Option<string>): Call {
    Call("q", "hours", 1, "agent", None, found)
  }

  /** Two recordings of one new question overlap, and no vector tells: two open groups of one key. */
  lemma OverlappingRecordingsTwin()
    ensures var events := [Begin(0, Asking(None)), Begin(1, Asking(None)), Finish(0, None, None, "s0"), Finish(1, None, None, "s1")];
            Run(Sample(), EMPTY, events) && !DistinctKeys(After(Sample(), EMPTY, events).gaps)
  {
    var cfg := Sample();
    var e0, e1, e2, e3 := Begin(0, Asking(None)), Begin(1, Asking(None)), Finish(0, None, None, "s0"), Finish(1, None, None, "s1");
    var r1 := Apply(cfg, EMPTY, e0);
    var r2 := Apply(cfg, r1, e1);
    var r3 := Apply(cfg, r2, e2);
    assert "g" in r3.gaps && r3.gaps["g"].key == "hours";
    var r4 := Apply(cfg, r3, e3);
    assert "g" != "h";
    assert r4.gaps["g"].key == r4.gaps["h"].key == "hours";
    assert !DistinctKeys(r4.gaps);
    RunOfFour(cfg, EMPTY, e0, e1, e2, e3);
  }

  /** A group closed while a second recording of its question waits gets the search, and its centroid back. */
  lemma ClosedGapGetsACentroid(v: Vec)
    ensures var events := [Finish(0, Some(v), None, "s0"), Begin(1, Asking(Some("g"))), Close("g", "note", 2), Finish(1, Some(v), None, "s1")];
            var begun := Apply(Sample(), EMPTY, Begin(0, Asking(None)));
            && Run(Sample(), begun, events) && !OnlyOpen(After(Sample(), begun, events))
            && var end := After(Sample(), begun, events);
               "g" in end.gaps && end.gaps["g"].status == Closed && "s1" in end.searches && end.searches["s1"].gapId == "g"
  {
    var cfg := Sample();
    var begun := Apply(cfg, EMPTY, Begin(0, Asking(None)));
    var e0, e1, e2, e3 := Finish(0, Some(v), None, "s0"), Begin(1, Asking(Some("g"))), Close("g", "note", 2), Finish(1, Some(v), None, "s1");
    var r1 := Apply(cfg, begun, e0);
    assert r1.gaps["g"].key == "hours" && r1.gaps.Keys == {"g"};
    var r2 := Apply(cfg, r1, e1);
    var r3 := Apply(cfg, r2, e2);
    assert r3.gaps["g"].status == Closed;
    var r4 := Apply(cfg, r3, e3);
    assert "g" in r4.centroids && r4.gaps["g"].status == Closed;
    RunOfFour(cfg, begun, e0, e1, e2, e3);
  }

  lemma RunOfFour(cfg: Config, r: Register, e0: Event, e1: Event, e2: Event, e3: Event)
    requires Possible(cfg, r, e0)
    requires Possible(cfg, Apply(cfg, r, e0), e1)
    requires Possible(cfg, Apply(cfg, Apply(cfg, r, e0), e1), e2)
    requires Possible(cfg, Apply(cfg, Apply(cfg, Apply(cfg, r, e0), e1), e2), e3)
    ensures Run(cfg, r, [e0, e1, e2, e3])
    ensures After(cfg, r, [e0, e1, e2, e3]) == Apply(cfg, Apply(cfg, Apply(cfg, Apply(cfg, r, e0), e1), e2), e3)
  {
    hide Apply;
    hide Possible;
    PossibleIsReady(cfg, r, e0);
    var r1 := Apply(cfg, r, e0);
    PossibleIsReady(cfg, r1, e1);
    var r2 := Apply(cfg, r1, e1);
    PossibleIsReady(cfg, r2, e2);
    var r3 := Apply(cfg, r2, e2);
    PossibleIsReady(cfg, r3, e3);
    RunMore(cfg, r3, e3, []);
    RunMore(cfg, r2, e2, [e3]);
    RunMore(cfg, r1, e1, [e2, e3]);
    RunMore(cfg, r, e0, [e1, e2, e3]);
  }

  lemma RunMore(cfg: Config, r: Register, e: Event, events: seq<Event>)
    requires Possible(cfg, r, e) && (e.Finish? ==> e.done in r.calls) && Run(cfg, Apply(cfg, r, e), events)
    ensures Run(cfg, r, [e] + events) && After(cfg, r, [e] + events) == After(cfg, Apply(cfg, r, e), events)
  {
    assert ([e] + events)[1..] == events;
  }
}
