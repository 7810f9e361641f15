/** The store itself: tables and centroids changed in place, each method one step of the register. */
module GapStores {
  import opened Text
  import opened Gaps

  class GapStore {
    const cfg: Config
    var gaps: map<string, Gap>
    var searches: map<string, Search>
    var centroids: map<string, Centroid>
    var calls: map<nat, Call>

    ghost function Contents(): Register
      reads this
    {
      Register(gaps, searches, centroids, calls)
    }

    /** Opens a file: the tables as they are, the centroids of the open groups. */
    constructor (cfg: Config, gaps: map<string, Gap>, searches: map<string, Search>)
      ensures this.cfg == cfg
      ensures Contents() == Register(gaps, searches, Loaded(gaps), map[])
      ensures forall id :: id in centroids <==> id in gaps && gaps[id].status == Open && gaps[id].centroid.Some?
      ensures forall id :: id in centroids ==> Some(centroids[id].vec) == gaps[id].centroid && centroids[id].count == gaps[id].count
      ensures AllCounted(gaps, searches) && AllScored(gaps, searches) ==> Sound(Contents())
    {
      this.cfg, this.gaps, this.searches, this.calls := cfg, gaps, searches, map[];
      var loaded: map<string, Centroid> := map[];
      var left := gaps.Keys;
      while left != {}
        invariant left <= gaps.Keys
        invariant loaded.Keys == Loaded(gaps).Keys - left
        invariant forall id :: id in loaded ==> loaded[id] == Loaded(gaps)[id]
        decreases |left|
      {
        var id :| id in left;
        left := left - {id};
        var gap := gaps[id];
        if gap.centroid.Some? && gap.status == Open {
          loaded := loaded[id := Centroid(gap.centroid.value, gap.count)];
        }
      }
      this.centroids := loaded;
    }

    /** The open gap of this key seen last. */
    method FindByKey(key: string) returns (found: Option<string>)
      ensures KeyMatch(gaps, key, found)
      ensures found.None? <==> key == "" || forall id :: id in gaps ==> gaps[id].key != key || gaps[id].status != Open
      ensures found.Some? ==> found.value in gaps && gaps[found.value].key == key && gaps[found.value].status == Open
      ensures found.Some? ==>
        forall id :: id in gaps && gaps[id].key == key && gaps[id].status == Open ==> gaps[id].lastSeen <= gaps[found.value].lastSeen
    {
      found := None;
      if key == "" { return; }
      var left := gaps.Keys;
      while left != {}
        invariant left <= gaps.Keys
        invariant found.None? ==> forall id :: id in gaps && id !in left ==> !SameKey(gaps[id], key)
        invariant found.Some? ==> found.value in gaps && SameKey(gaps[found.value], key)
        invariant found.Some? ==> forall id :: id in gaps && id !in left && SameKey(gaps[id], key) ==> gaps[id].lastSeen <= gaps[found.value].lastSeen
        decreases |left|
      {
        var id :| id in left;
        left := left - {id};
        if SameKey(gaps[id], key) && (found.None? || gaps[id].lastSeen > gaps[found.value].lastSeen) {
          found := Some(id);
        }
      }
    }

    /** The nearest centroid, if one is near enough. */
    method FindByVector(vec: Vec) returns (found: Option<string>)
      ensures VectorMatch(cfg, centroids, Some(vec), found)
      ensures found.None? <==>
        forall id :: id in centroids ==> |centroids[id].vec| != |vec| || cfg.cosine(vec, centroids[id].vec) < cfg.threshold
      ensures found.Some? ==> found.value in centroids && |centroids[found.value].vec| == |vec|
      ensures found.Some? ==> forall id :: id in centroids && |centroids[id].vec| == |vec| ==>
        cfg.cosine(vec, centroids[id].vec) <= cfg.cosine(vec, centroids[found.value].vec)
    {
      found := None;
      var sim := 0.0;
      var left := centroids.Keys;
      while left != {}
        invariant left <= centroids.Keys
        invariant found.None? ==> forall id :: id in centroids && id !in left ==> !Near(cfg, centroids[id], vec)
        invariant found.Some? ==> found.value in centroids && Near(cfg, centroids[found.value], vec)
        invariant found.Some? ==> sim == cfg.cosine(vec, centroids[found.value].vec)
        invariant found.Some? ==> forall id :: id in centroids && id !in left && Near(cfg, centroids[id], vec) ==> cfg.cosine(vec, centroids[id].vec) <= sim
        decreases |left|
      {
        var id :| id in left;
        left := left - {id};
        if |centroids[id].vec| != |vec| { continue; }
        var s := cfg.cosine(vec, centroids[id].vec);
        if s >= cfg.threshold && (found.None? || s > sim) {
          found, sim := Some(id), s;
        }
      }
    }

    /** The part of a recording before the embedding is awaited. */
    method BeginSearch(call: nat, query: string, key: string, ts: nat, agent: string, topScore: Option<real>) returns (asked: Call)
      requires Sound(Contents()) && call !in calls
      modifies this`calls
      ensures Sound(Contents())
      ensures asked.(found := None) == Call(query, key, ts, agent, topScore, None)
      ensures calls == old(calls)[call := asked]
      ensures Possible(cfg, old(Contents()), Begin(call, asked))
      ensures Contents() == Apply(cfg, old(Contents()), Begin(call, asked))
    {
      hide Sound;
      var found := FindByKey(key);
      asked := Call(query, key, ts, agent, topScore, found);
      StepKeepsSound(cfg, Contents(), Begin(call, asked));
      calls := calls[call := asked];
    }

    /** A running mean moves towards the vector, or starts from it. */
    method FoldCentroid(id: string, vec: Vec)
      requires id in gaps
      modifies this`gaps, this`centroids
      ensures centroids == old(centroids)[id := Fold(cfg, old(centroids), id, vec)]
      ensures gaps == old(gaps)[id := old(gaps)[id].(centroid := Some(Fold(cfg, old(centroids), id, vec).vec))]
    {
      var next, count := vec, 1;
      if id in centroids && |centroids[id].vec| == |vec| {
        next := cfg.blend(centroids[id], vec);
        count := centroids[id].count + 1;
      }
      centroids := centroids[id := Centroid(next, count)];
      gaps := gaps[id := gaps[id].(centroid := Some(next))];
    }

    /** One more search in a group there is. */
    method JoinGap(id: string, k: Call, vec: Option<Vec>)
      requires id in gaps
      modifies this`gaps, this`centroids
      ensures Contents() == Joined(cfg, old(Contents()), id, k, vec)
    {
      hide Fold, Best;
      gaps := gaps[id := gaps[id].(count := gaps[id].count + 1, lastSeen := k.ts, topScore := Some(Best(gaps[id].topScore, k.topScore)))];
      if vec.Some? { FoldCentroid(id, vec.value); }
    }

    /** A new group of one search. */
    method StartGap(id: string, k: Call, vec: Option<Vec>)
      modifies this`gaps, this`centroids
      ensures Contents() == Started(old(Contents()), id, k, vec)
    {
      gaps := gaps[id := Gap(k.query, k.key, vec, 1, 0, k.topScore, k.ts, k.ts, Open, None, None)];
      if vec.Some? { centroids := centroids[id := Centroid(vec.value, 1)]; }
    }

    /** The part after it; no result when the new row's identifier is taken twice over. */
    method FinishSearch(call: nat, vec: Option<Vec>, searchId: string) returns (target: Option<string>, near: Option<string>)
      requires Sound(Contents()) && call in calls && searchId !in searches
      modifies this
      ensures Sound(Contents())
      ensures Possible(cfg, old(Contents()), Finish(call, vec, near, searchId))
      ensures Contents() == Apply(cfg, old(Contents()), Finish(call, vec, near, searchId))
      ensures target == Target(cfg, old(Contents()), old(calls)[call], near)
      ensures calls.Keys == old(calls).Keys - {call} && forall c :: c in calls ==> calls[c] == old(calls)[c]
      ensures old(calls)[call].found.Some? ==> target == old(calls)[call].found && near.None?
      ensures old(calls)[call].found.None? && near.Some? ==> target == near
      ensures target.None? ==> gaps == old(gaps) && centroids == old(centroids) && searches == old(searches)
      ensures var k := old(calls)[call]; target.Some? ==>
        && searches == old(searches)[searchId := Search(target.value, k.ts, k.agent, k.topScore, false)]
        && RowFiled(old(gaps), gaps, target.value, k, vec)
        && MeanFiled(cfg, old(centroids), centroids, gaps, target.value, vec)
      ensures var k := old(calls)[call];
        var id := cfg.idOf(if k.key != "" then k.key else k.query);
        k.found.None? && near.None? && id !in old(gaps) ==> target == Some(id)
      ensures var k := old(calls)[call];
        var id := cfg.idOf(if k.key != "" then k.key else k.query);
        k.found.None? && near.None? && id in old(gaps) ==>
          target == if cfg.idAt(k.key, k.ts) in old(gaps) then None else Some(cfg.idAt(k.key, k.ts))
    {
      hide RowFiled, MeanFiled;
      hide KeyMatch, VectorMatch, Joined, Started, Sound;
      var k := calls[call];
      KnownGroups(cfg, Contents(), call);
      ghost var before := Contents();
      near := None;
      if k.found.None? {
        if vec.Some? { near := FindByVector(vec.value); }
        else { NoVectorNoMatch(cfg, centroids); }
        NearIsKnown(cfg, before, vec, near);
      }
      StepKeepsSound(cfg, before, Finish(call, vec, near, searchId));
      FinishedInFull(cfg, before, call, vec, near, searchId);
      calls := Without(calls, call);
      target := if k.found.Some? then k.found else near;
      if target.Some? {
        JoinGap(target.value, k, vec);
      } else {
        var id := cfg.idOf(if k.key != "" then k.key else k.query);
        if id in gaps { id := cfg.idAt(k.key, k.ts); }
        if id in gaps { return; }
        StartGap(id, k, vec);
        target := Some(id);
      }
      searches := searches[searchId := Search(target.value, k.ts, k.agent, k.topScore, false)];
    }

    /** The caller opened one of the results; only the first time counts. */
    method MarkFollowed(searchId: string) returns (first: bool)
      requires Sound(Contents())
      modifies this`gaps, this`searches
      ensures Sound(Contents())
      ensures first == (searchId in old(searches) && !old(searches)[searchId].followed)
      ensures Contents() == Apply(cfg, old(Contents()), Follow(searchId))
      ensures !first ==> searches == old(searches) && gaps == old(gaps)
      ensures first ==> searches == old(searches)[searchId := old(searches)[searchId].(followed := true)]
      ensures var id := if first then old(searches)[searchId].gapId else ""; first ==>
        && id in old(gaps) && gaps == old(gaps)[id := old(gaps)[id].(followed := old(gaps)[id].followed + 1)]
    {
      hide Sound;
      StepKeepsSound(cfg, Contents(), Follow(searchId));
      if searchId in searches { FiledSomewhere(Contents(), searchId); }
      if searchId !in searches || searches[searchId].followed { return false; }
      var id := searches[searchId].gapId;
      searches := searches[searchId := searches[searchId].(followed := true)];
      if id in gaps {
        gaps := gaps[id := gaps[id].(followed := gaps[id].followed + 1)];
      }
      return true;
    }

    /** None for a gap that is not there. */
    method CloseGap(id: string, note: string, ts: nat) returns (closed: Option<Gap>)
      requires Sound(Contents())
      modifies this`gaps, this`centroids
      ensures Sound(Contents())
      ensures closed.Some? <==> id in old(gaps)
      ensures closed.Some? ==> id in gaps && closed.value == gaps[id]
      ensures Contents() == Apply(cfg, old(Contents()), Close(id, note, ts))
      ensures id in old(gaps) ==> gaps == old(gaps)[id := old(gaps)[id].(status := Closed, note := Some(note), closedAt := Some(ts))]
      ensures id in old(gaps) ==>
        id !in centroids && forall i :: i != id ==> (i in centroids <==> i in old(centroids)) && (i in centroids ==> centroids[i] == old(centroids)[i])
      ensures id !in old(gaps) ==> gaps == old(gaps) && centroids == old(centroids)
    {
      hide Sound;
      StepKeepsSound(cfg, Contents(), Close(id, note, ts));
      if id !in gaps { return None; }
      gaps := gaps[id := gaps[id].(status := Closed, note := Some(note), closedAt := Some(ts))];
      centroids := map i | i in centroids && i != id :: centroids[i];
      return Some(gaps[id]);
    }

    method DismissGap(id: string, ts: nat) returns (dismissed: Option<Gap>)
      requires Sound(Contents())
      modifies this`gaps, this`centroids
      ensures Sound(Contents())
      ensures dismissed.Some? <==> id in old(gaps)
      ensures dismissed.Some? ==> id in gaps && dismissed.value == gaps[id]
      ensures Contents() == Apply(cfg, old(Contents()), Dismiss(id, ts))
      ensures id in old(gaps) ==> gaps == old(gaps)[id := old(gaps)[id].(status := Dismissed, closedAt := Some(ts))]
      ensures id in old(gaps) ==>
        id !in centroids && forall i :: i != id ==> (i in centroids <==> i in old(centroids)) && (i in centroids ==> centroids[i] == old(centroids)[i])
      ensures id !in old(gaps) ==> gaps == old(gaps) && centroids == old(centroids)
    {
      hide Sound;
      StepKeepsSound(cfg, Contents(), Dismiss(id, ts));
      if id !in gaps { return None; }
      gaps := gaps[id := gaps[id].(status := Dismissed, closedAt := Some(ts))];
      centroids := map i | i in centroids && i != id :: centroids[i];
      return Some(gaps[id]);
    }
  }

  /** What a finished recording leaves in the groups: one search more in its own, or a new open group of one. */
  ghost predicate RowFiled(before: map<string, Gap>, gaps: map<string, Gap>, id: string, k: Call, vec: Option<Vec>) {
    && id in gaps && gaps == before[id := gaps[id]]
    && (id !in before ==> gaps[id] == Gap(k.query, k.key, vec, 1, 0, k.topScore, k.ts, k.ts, Open, None, None))
    && (id in before ==> RowGrown(before[id], gaps[id], k, vec))
  }

  ghost predicate RowGrown(was: Gap, row: Gap, k: Call, vec: Option<Vec>) {
    && row.count == was.count + 1 && row.lastSeen == k.ts && row.topScore == Some(Higher(was.topScore, k.topScore))
    && row.query == was.query && row.key == was.key && row.followed == was.followed && row.firstSeen == was.firstSeen
    && row.status == was.status && row.note == was.note && row.closedAt == was.closedAt
    && (vec.None? ==> row.centroid == was.centroid)
  }

  /** The higher of two scores; no score is a zero. */
  function Higher(a: Option<real>, b: Option<real>): real {
    match (a, b)
    case (None, None) => 0.0
    case (Some(x), None) => if x < 0.0 then 0.0 else x
    case (None, Some(y)) => if y < 0.0 then 0.0 else y
    case (Some(x), Some(y)) => if x < y then y else x
  }

  /** And in the running means: the vector blended into its group's with one query more, or starting it anew. */
  ghost predicate MeanFiled(
    cfg: Config, before: map<string, Centroid>, centroids: map<string, Centroid>, gaps: map<string, Gap>, id: string, vec: Option<Vec>)
  {
    match vec
    case None => centroids == before
    case Some(v) =>
      && id in centroids && centroids == before[id := centroids[id]]
      && id in gaps && gaps[id].centroid == Some(centroids[id].vec)
      && MeanMoved(cfg, before, centroids[id], id, v)
  }

  ghost predicate MeanMoved(cfg: Config, before: map<string, Centroid>, now: Centroid, id: string, vec: Vec) {
    if id in before && |before[id].vec| == |vec|
    then now.vec == cfg.blend(before[id], vec) && now.count == before[id].count + 1
    else now.vec == vec && now.count == 1
  }

  lemma FinishedInFull(cfg: Config, r: Register, call: nat, vec: Option<Vec>, near: Option<string>, searchId: string)
    requires Sound(r) && call in r.calls && Possible(cfg, r, Finish(call, vec, near, searchId))
    ensures var k, now := r.calls[call], Apply(cfg, r, Finish(call, vec, near, searchId));
      var target := Target(cfg, r, k, near);
      target.Some? ==>
        && RowFiled(r.gaps, now.gaps, target.value, k, vec)
        && MeanFiled(cfg, r.centroids, now.centroids, now.gaps, target.value, vec)
  {
    hide Sound, Possible, Target;
    NewHasNoCentroid(r);
  }

  lemma NewHasNoCentroid(r: Register)
    requires Sound(r)
    ensures forall id :: id in r.centroids ==> id in r.gaps
  {}

  lemma FiledSomewhere(r: Register, searchId: string)
    requires Sound(r) && searchId in r.searches
    ensures r.searches[searchId].gapId in r.gaps
  {}

  lemma KnownGroups(cfg: Config, r: Register, call: nat)
    requires Sound(r) && call in r.calls
    ensures r.calls[call].found.Some? ==> r.calls[call].found.value in r.gaps
  {}

  lemma NearIsKnown(cfg: Config, r: Register, vec: Option<Vec>, near: Option<string>)
    requires Sound(r) && VectorMatch(cfg, r.centroids, vec, near)
    ensures near.Some? ==> near.value in r.gaps
  {}

  lemma NoVectorNoMatch(cfg: Config, centroids: map<string, Centroid>)
    ensures VectorMatch(cfg, centroids, None, None)
  {}
}
