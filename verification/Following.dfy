/** `FollowTracker` of packages/server/src/gaps.ts. */
module Following {
  // The last searches of each agent, and which of them a read follows. The agents'
  // lists do not touch each other, so a run is one agent's searches and reads.

  import opened Text

  datatype Recent = Recent(searchId: string, names: set<string>, ts: int)

  // ---- one list

  /** The search a read finds: from the newest back, up to the first that is too old. */
  function ScanBack(list: seq<Recent>, n: nat, name: string, cutoff: int): (r: Option<nat>)
    requires n <= |list|
    ensures r.Some? ==> r.value < n
  {
    if n == 0 || list[n - 1].ts < cutoff then None
    else if name in list[n - 1].names then Some(n - 1)
    else ScanBack(list, n - 1, name, cutoff)
  }

  predicate Matches(r: Recent, name: string, cutoff: int) {
    r.ts >= cutoff && name in r.names
  }

  /** The newest search in the window that holds the name, by looking at every one. */
  ghost predicate IsLatest(list: seq<Recent>, name: string, cutoff: int, r: Option<nat>) {
    match r
    case None => forall i :: 0 <= i < |list| ==> !Matches(list[i], name, cutoff)
    case Some(k) => k < |list| && Matches(list[k], name, cutoff) && forall i :: k < i < |list| ==> !Matches(list[i], name, cutoff)
  }

  ghost predicate InOrder(list: seq<Recent>) {
    forall i, j :: 0 <= i < j < |list| ==> list[i].ts <= list[j].ts
  }

  /** A search too old for the window comes after the newest that matches. */
  ghost predicate Hidden(list: seq<Recent>, name: string, cutoff: int) {
    exists i, j :: 0 <= i < j < |list| && Matches(list[i], name, cutoff) && list[j].ts < cutoff
      && forall k :: i < k < |list| ==> !Matches(list[k], name, cutoff)
  }

  /** A read follows the search at `k`: it is in the window and holds the name, and every later one is in the window and does not. */
  ghost predicate Follows(list: seq<Recent>, name: string, cutoff: int, k: int) {
    && 0 <= k < |list| && list[k].ts >= cutoff && name in list[k].names
    && forall j :: k < j < |list| ==> list[j].ts >= cutoff && name !in list[j].names
  }

  ghost predicate FollowsNothing(list: seq<Recent>, name: string, cutoff: int) {
    forall k :: !Follows(list, name, cutoff, k)
  }

  /** The backward scan finds just that search. */
  lemma {:induction false} ScanFinds(list: seq<Recent>, n: nat, name: string, cutoff: int, k: int)
    requires n <= |list| && forall j :: n <= j < |list| ==> list[j].ts >= cutoff && name !in list[j].names
    ensures Follows(list, name, cutoff, k) <==> ScanBack(list, n, name, cutoff).Some? && ScanBack(list, n, name, cutoff).value == k
  {
    if n > 0 && list[n - 1].ts >= cutoff && name !in list[n - 1].names {
      ScanFinds(list, n - 1, name, cutoff, k);
    } else if n == 0 {
      assert !Follows(list, name, cutoff, k);
    } else if list[n - 1].ts < cutoff {
      assert !Follows(list, name, cutoff, k);
    } else {
      assert Follows(list, name, cutoff, n - 1);
    }
  }

  lemma {:induction false} ScanBackIs(list: seq<Recent>, n: nat, name: string, cutoff: int)
    requires n <= |list|
    ensures var r := ScanBack(list, n, name, cutoff);
            var from := if r.Some? then r.value else 0;
            && (r.Some? ==> Matches(list[r.value], name, cutoff))
            && (forall k :: from <= k < n && !(r.Some? && k == from) && Matches(list[k], name, cutoff) ==>
                  exists j :: k < j < n && list[j].ts < cutoff)
            && (r.Some? ==> forall k :: from < k < n ==> list[k].ts >= cutoff && !Matches(list[k], name, cutoff))
  {
    if n > 0 && list[n - 1].ts >= cutoff && name !in list[n - 1].names {
      ScanBackIs(list, n - 1, name, cutoff);
    }
  }

  /** Stopping at the first search that is too old finds what a full scan finds, exactly when none that is too old hides the match. */
  lemma EarlyBreakAgrees(list: seq<Recent>, name: string, cutoff: int)
    ensures IsLatest(list, name, cutoff, ScanBack(list, |list|, name, cutoff)) <==> !Hidden(list, name, cutoff)
  {
    ScanBackIs(list, |list|, name, cutoff);
    var r := ScanBack(list, |list|, name, cutoff);
    if r.None? && !IsLatest(list, name, cutoff, None) {
      NewestMatch(list, |list|, name, cutoff);
    }
  }

  lemma {:induction false} NewestMatch(list: seq<Recent>, n: nat, name: string, cutoff: int)
    requires n <= |list| && exists i :: 0 <= i < n && Matches(list[i], name, cutoff)
    ensures exists k :: 0 <= k < n && Matches(list[k], name, cutoff) && forall i :: k < i < n ==> !Matches(list[i], name, cutoff)
  {
    if !Matches(list[n - 1], name, cutoff) { NewestMatch(list, n - 1, name, cutoff); }
  }

  lemma InOrderHidesNothing(list: seq<Recent>, name: string, cutoff: int)
    requires InOrder(list)
    ensures !Hidden(list, name, cutoff)
  {}

  // ---- one agent's run

  datatype Event = Searched(search: Recent) | Read(name: string, now: int)

  function Latest(list: seq<Recent>, perAgent: nat): seq<Recent> {
    if |list| > perAgent then list[|list| - perAgent..] else list
  }

  function Drop(list: seq<Recent>, i: nat): seq<Recent>
    requires i < |list|
  {
    list[..i] + list[i + 1..]
  }

  function Answer(list: seq<Recent>, e: Event, windowMs: int): (r: Option<nat>)
    ensures r.Some? ==> r.value < |list|
  {
    if e.Read? then ScanBack(list, |list|, e.name, e.now - windowMs) else None
  }

  function Step(list: seq<Recent>, e: Event, windowMs: int, perAgent: nat): seq<Recent> {
    match e
    case Searched(s) => Latest(list + [s], perAgent)
    case Read(_, _) =>
      var hit := Answer(list, e, windowMs);
      if hit.Some? then Drop(list, hit.value) else list
  }

  function Held(events: seq<Event>, windowMs: int, perAgent: nat): seq<Recent> {
    if |events| == 0 then [] else Step(Held(events[..|events| - 1], windowMs, perAgent), events[|events| - 1], windowMs, perAgent)
  }

  /** The answers given, one for each event. */
  function Answers(events: seq<Event>, windowMs: int, perAgent: nat): seq<Option<string>> {
    if |events| == 0 then []
    else
      var list := Held(events[..|events| - 1], windowMs, perAgent);
      var hit := Answer(list, events[|events| - 1], windowMs);
      Answers(events[..|events| - 1], windowMs, perAgent) + [if hit.Some? then Some(list[hit.value].searchId) else None]
  }

  ghost predicate IsSuffix(a: seq<Recent>, b: seq<Recent>) {
    |a| <= |b| && b[|b| - |a|..] == a
  }

  lemma SuffixAdd(list: seq<Recent>, all: seq<Recent>, s: Recent, perAgent: nat)
    requires IsSuffix(list, all)
    ensures IsSuffix(Latest(list + [s], perAgent), all + [s])
  {
    var longer, more := list + [s], all + [s];
    assert more[|more| - |longer|..] == longer;
    var kept := Latest(longer, perAgent);
    assert more[|more| - |kept|..] == kept;
  }

  lemma SuffixDrop(list: seq<Recent>, all: seq<Recent>, i: nat)
    requires IsSuffix(list, all) && i < |list|
    ensures IsSuffix(Drop(list, i), Drop(all, i + (|all| - |list|)))
  {
    var d := |all| - |list|;
    assert all[d..] == list;
    forall k | 0 <= k < |list| - 1 ensures Drop(list, i)[k] == Drop(all, i + d)[d + k] {
      assert list[k] == all[d + k] && list[k + 1] == all[d + k + 1];
    }
    assert Drop(all, i + d)[d..] == Drop(list, i);
  }

  /** What one event does to the searches recorded and not yet returned, if none were ever forgotten. */
  ghost function Onward(list: seq<Recent>, all: seq<Recent>, e: Event, windowMs: int): seq<Recent>
    requires |list| <= |all|
  {
    match e
    case Searched(s) => all + [s]
    case Read(_, _) =>
      var hit := Answer(list, e, windowMs);
      if hit.Some? then Drop(all, hit.value + (|all| - |list|)) else all
  }

  lemma OnwardSuffix(list: seq<Recent>, all: seq<Recent>, e: Event, windowMs: int, perAgent: nat)
    requires IsSuffix(list, all)
    ensures IsSuffix(Step(list, e, windowMs, perAgent), Onward(list, all, e, windowMs))
  {
    hide IsSuffix, Drop, ScanBack, Latest;
    SuffixShorter(list, all);
    match e {
      case Searched(s) => SuffixAdd(list, all, s, perAgent);
      case Read(_, _) =>
        var hit := Answer(list, e, windowMs);
        if hit.Some? { SuffixDrop(list, all, hit.value); }
    }
  }

  lemma SuffixShorter(list: seq<Recent>, all: seq<Recent>)
    requires IsSuffix(list, all)
    ensures |list| <= |all|
  {}

  /** The searches recorded and not yet returned, forgotten ones too. */
  ghost function Unconsumed(events: seq<Event>, windowMs: int, perAgent: nat): (all: seq<Recent>)
    ensures IsSuffix(Held(events, windowMs, perAgent), all)
  {
    if |events| == 0 then []
    else
      var before := events[..|events| - 1];
      var list := Held(before, windowMs, perAgent);
      var all := Unconsumed(before, windowMs, perAgent);
      OnwardSuffix(list, all, events[|events| - 1], windowMs, perAgent);
      Onward(list, all, events[|events| - 1], windowMs)
  }

  lemma {:induction false} NeverMoreThanPerAgent(events: seq<Event>, windowMs: int, perAgent: nat)
    ensures |Held(events, windowMs, perAgent)| <= perAgent
  {
    if |events| > 0 { NeverMoreThanPerAgent(events[..|events| - 1], windowMs, perAgent); }
  }

  function TimeOf(e: Event): int {
    if e.Searched? then e.search.ts else e.now
  }

  ghost predicate ClockForward(events: seq<Event>) {
    forall i, j :: 0 <= i < j < |events| ==> TimeOf(events[i]) <= TimeOf(events[j])
  }

  ghost predicate Until(list: seq<Recent>, t: int) {
    forall i :: 0 <= i < |list| ==> list[i].ts <= t
  }

  lemma InOrderAdd(list: seq<Recent>, s: Recent)
    requires InOrder(list) && Until(list, s.ts)
    ensures InOrder(list + [s]) && Until(list + [s], s.ts)
  {}

  lemma InOrderDrop(list: seq<Recent>, i: nat, t: int)
    requires InOrder(list) && Until(list, t) && i < |list|
    ensures InOrder(Drop(list, i)) && Until(Drop(list, i), t)
  {}

  lemma UntilLater(list: seq<Recent>, t: int, later: int)
    requires Until(list, t) && t <= later
    ensures Until(list, later)
  {}

  lemma ClockBefore(events: seq<Event>)
    requires |events| > 0 && ClockForward(events)
    ensures ClockForward(events[..|events| - 1])
    ensures |events| > 1 ==> TimeOf(events[|events| - 2]) <= TimeOf(events[|events| - 1])
  {}

  lemma {:induction false} UnconsumedInOrder(events: seq<Event>, windowMs: int, perAgent: nat)
    requires ClockForward(events)
    ensures InOrder(Unconsumed(events, windowMs, perAgent))
    ensures |events| > 0 ==> Until(Unconsumed(events, windowMs, perAgent), TimeOf(events[|events| - 1]))
  {
    hide InOrder, Until, ClockForward, ScanBack, Held, Drop;
    if |events| > 0 {
      var before := events[..|events| - 1];
      var e := events[|events| - 1];
      ClockBefore(events);
      UnconsumedInOrder(before, windowMs, perAgent);
      var all := Unconsumed(before, windowMs, perAgent);
      if |before| > 0 {
        UntilLater(all, TimeOf(before[|before| - 1]), TimeOf(e));
      } else {
        NoneYet(TimeOf(e));
      }
      match e {
        case Searched(s) => InOrderAdd(all, s);
        case Read(_, _) =>
          var list := Held(before, windowMs, perAgent);
          var hit := Answer(list, e, windowMs);
          if hit.Some? { InOrderDrop(all, hit.value + (|all| - |list|), TimeOf(e)); }
      }
    } else {
      NoneYet(0);
    }
  }

  lemma NoneYet(t: int)
    ensures InOrder([]) && Until([], t)
  {}

  /**
    With a clock that does not go back, a read is answered with the newest search
    in the window that holds the name among all not yet returned, unless that
    one has been forgotten; the place is counted in the whole list.
   */
  lemma ReadFollowsTheNewest(events: seq<Event>, name: string, now: int, windowMs: int, perAgent: nat)
    requires ClockForward(events)
    ensures var list := Held(events, windowMs, perAgent);
            var all := Unconsumed(events, windowMs, perAgent);
            var hit := Answer(list, Read(name, now), windowMs);
            var forgotten := |all| - |list|;
            && (hit.Some? ==> IsLatest(all, name, now - windowMs, Some(hit.value + forgotten)) && all[hit.value + forgotten] == list[hit.value])
            && (hit.None? ==> forall i :: forgotten <= i < |all| ==> !Matches(all[i], name, now - windowMs))
  {
    hide Held;
    hide Unconsumed;
    hide InOrder;
    hide Hidden;
    hide ScanBack;
    var list := Held(events, windowMs, perAgent);
    var all := Unconsumed(events, windowMs, perAgent);
    UnconsumedInOrder(events, windowMs, perAgent);
    SuffixInOrder(list, all);
    InOrderHidesNothing(list, name, now - windowMs);
    EarlyBreakAgrees(list, name, now - windowMs);
    LatestOfSuffix(list, all, name, now - windowMs, Answer(list, Read(name, now), windowMs));
  }

  lemma SuffixInOrder(list: seq<Recent>, all: seq<Recent>)
    requires IsSuffix(list, all) && InOrder(all)
    ensures InOrder(list)
  {
    var d := |all| - |list|;
    forall i | 0 <= i < |list| ensures list[i] == all[d + i] { assert all[d..][i] == all[d + i]; }
  }

  lemma LatestOfSuffix(list: seq<Recent>, all: seq<Recent>, name: string, cutoff: int, r: Option<nat>)
    requires IsSuffix(list, all) && IsLatest(list, name, cutoff, r)
    ensures r.Some? ==> IsLatest(all, name, cutoff, Some(r.value + (|all| - |list|))) && all[r.value + (|all| - |list|)] == list[r.value]
    ensures r.None? ==> forall i :: |all| - |list| <= i < |all| ==> !Matches(all[i], name, cutoff)
  {
    var d := |all| - |list|;
    forall i | d <= i < |all| ensures all[i] == list[i - d] { assert all[d..][i - d] == all[i]; }
  }

  // ---- each search once

  function CountIn(list: seq<Recent>, id: string): nat {
    if |list| == 0 then 0 else CountIn(list[..|list| - 1], id) + (if list[|list| - 1].searchId == id then 1 else 0)
  }

  function CountSearched(events: seq<Event>, id: string): nat {
    if |events| == 0 then 0
    else CountSearched(events[..|events| - 1], id) + (if events[|events| - 1].Searched? && events[|events| - 1].search.searchId == id then 1 else 0)
  }

  function CountAnswered(answers: seq<Option<string>>, id: string): nat {
    if |answers| == 0 then 0
    else CountAnswered(answers[..|answers| - 1], id) + (if answers[|answers| - 1] == Some(id) then 1 else 0)
  }

  lemma {:induction false} CountConcat(a: seq<Recent>, b: seq<Recent>, id: string)
    ensures CountIn(a + b, id) == CountIn(a, id) + CountIn(b, id)
  {
    if |b| == 0 {
      assert a + b == a;
    } else {
      CountConcat(a, b[..|b| - 1], id);
      assert (a + b)[..|a + b| - 1] == a + b[..|b| - 1];
    }
  }

  lemma CountDrop(list: seq<Recent>, i: nat, id: string)
    requires i < |list|
    ensures CountIn(list, id) == CountIn(Drop(list, i), id) + (if list[i].searchId == id then 1 else 0)
  {
    assert list == list[..i] + [list[i]] + list[i + 1..];
    CountConcat(list[..i] + [list[i]], list[i + 1..], id);
    CountConcat(list[..i], [list[i]], id);
    CountConcat(list[..i], list[i + 1..], id);
    assert [list[i]][..0] == [];
  }

  lemma CountLatest(list: seq<Recent>, perAgent: nat, id: string)
    ensures CountIn(Latest(list, perAgent), id) <= CountIn(list, id)
  {
    if |list| > perAgent {
      var k := |list| - perAgent;
      assert list == list[..k] + list[k..];
      CountConcat(list[..k], list[k..], id);
    }
  }

  /** A search is returned, and held, at most as often as it was recorded; recorded once, it is returned at most once. */
  lemma {:induction false} EachSearchOnce(events: seq<Event>, windowMs: int, perAgent: nat, id: string)
    ensures CountAnswered(Answers(events, windowMs, perAgent), id) + CountIn(Held(events, windowMs, perAgent), id)
         <= CountSearched(events, id)
  {
    hide CountIn, ScanBack, Drop, Latest;
    if |events| > 0 {
      var before := events[..|events| - 1];
      var e := events[|events| - 1];
      EachSearchOnce(before, windowMs, perAgent, id);
      var list := Held(before, windowMs, perAgent);
      var answers := Answers(events, windowMs, perAgent);
      assert answers[..|answers| - 1] == Answers(before, windowMs, perAgent);
      match e {
        case Searched(s) =>
          CountLatest(list + [s], perAgent, id);
          CountConcat(list, [s], id);
          CountOne(s, id);
        case Read(_, _) =>
          var hit := Answer(list, e, windowMs);
          if hit.Some? { CountDrop(list, hit.value, id); }
      }
    } else {
      CountNone(id);
    }
  }

  lemma CountOne(s: Recent, id: string)
    ensures CountIn([s], id) == if s.searchId == id then 1 else 0
  {
    assert [s][..0] == [];
  }

  lemma CountNone(id: string)
    ensures CountIn([], id) == 0
  {}

  lemma ScanOne(list: seq<Recent>, n: nat, name: string, cutoff: int)
    requires 0 < n <= |list|
    ensures ScanBack(list, n, name, cutoff)
         == if list[n - 1].ts < cutoff then None else if name in list[n - 1].names then Some(n - 1) else ScanBack(list, n - 1, name, cutoff)
  {}

  lemma NothingToScanAt(list: seq<Recent>, name: string, cutoff: int)
    ensures ScanBack(list, 0, name, cutoff) == None
  {}

  lemma NothingToScan(name: string, cutoff: int)
    ensures ScanBack([], 0, name, cutoff) == None
  {}

  lemma SuffixWhole(list: seq<Recent>)
    ensures IsSuffix(list, list)
  {}

  lemma SuffixShift(list: seq<Recent>, all: seq<Recent>)
    requires |list| > 0 && IsSuffix(list, all)
    ensures IsSuffix(list[1..], all)
  {
    var d := |all| - |list|;
    assert all[d..][1..] == all[d + 1..];
  }

  lemma SuffixLatest(list: seq<Recent>, all: seq<Recent>, perAgent: nat)
    requires IsSuffix(list, all) && |list| <= perAgent && (|list| == perAgent || list == all)
    ensures list == Latest(all, perAgent)
  {}

  // ---- the tracker

  lemma LatestIs(list: seq<Recent>, perAgent: nat)
    ensures Latest(list, perAgent) == if |list| <= perAgent then list else list[|list| - perAgent..]
  {}

  lemma FollowedIs(list: seq<Recent>, name: string, cutoff: int)
    ensures var hit := ScanBack(list, |list|, name, cutoff);
      forall k :: Follows(list, name, cutoff, k) <==> hit.Some? && hit.value == k
  {
    hide ScanBack, Follows;
    forall k ensures Follows(list, name, cutoff, k) <==> ScanBack(list, |list|, name, cutoff).Some? && ScanBack(list, |list|, name, cutoff).value == k {
      ScanFinds(list, |list|, name, cutoff, k);
    }
  }

  class FollowTracker {
    const windowMs: int
    const perAgent: nat
    var recent: map<string, seq<Recent>>

    constructor (windowMs: int, perAgent: nat)
      ensures this.windowMs == windowMs && this.perAgent == perAgent && recent == map[]
    {
      this.windowMs, this.perAgent, recent := windowMs, perAgent, map[];
    }

    ghost function ListOf(agent: string): seq<Recent>
      reads this
    {
      if agent in recent then recent[agent] else []
    }

    method RecordSearch(agent: string, searchId: string, names: set<string>, now: int)
      modifies this
      ensures ListOf(agent) == Step(old(ListOf(agent)), Searched(Recent(searchId, names, now)), windowMs, perAgent)
      ensures var more := old(ListOf(agent)) + [Recent(searchId, names, now)];
        ListOf(agent) == if |more| <= perAgent then more else more[|more| - perAgent..]
      ensures forall other :: other != agent ==> ListOf(other) == old(ListOf(other))
    {
      hide IsSuffix, Latest;
      var list := if agent in recent then recent[agent] else [];
      list := list + [Recent(searchId, names, now)];
      ghost var pushed := list;
      SuffixWhole(pushed);
      while |list| > perAgent
        invariant recent == old(recent) && IsSuffix(list, pushed)
        invariant |list| >= perAgent || list == pushed
        decreases |list|
      {
        SuffixShift(list, pushed);
        list := list[1..];
      }
      SuffixLatest(list, pushed, perAgent);
      LatestIs(pushed, perAgent);
      recent := recent[agent := list];
    }

    method NoteRead(agent: string, name: string, now: int) returns (found: Option<string>)
      modifies this
      ensures ListOf(agent) == Step(old(ListOf(agent)), Read(name, now), windowMs, perAgent)
      ensures var hit := Answer(old(ListOf(agent)), Read(name, now), windowMs);
              found == if hit.Some? then Some(old(ListOf(agent))[hit.value].searchId) else None
      ensures found.None? ==> ListOf(agent) == old(ListOf(agent)) && FollowsNothing(old(ListOf(agent)), name, now - windowMs)
      ensures var list := old(ListOf(agent)); forall k :: Follows(list, name, now - windowMs, k) ==>
        found == Some(list[k].searchId) && ListOf(agent) == list[..k] + list[k + 1..]
      ensures forall other :: other != agent ==> ListOf(other) == old(ListOf(other))
    {
      hide ScanBack;
      FollowedIs(ListOf(agent), name, now - windowMs);
      if agent !in recent {
        NothingToScan(name, now - windowMs);
        return None;
      }
      var list := recent[agent];
      var cutoff := now - windowMs;
      var i := |list|;
      while i > 0
        invariant 0 <= i <= |list|
        invariant ScanBack(list, i, name, cutoff) == ScanBack(list, |list|, name, cutoff)
        invariant recent == old(recent)
      {
        ScanOne(list, i, name, cutoff);
        i := i - 1;
        if list[i].ts < cutoff { break; }
        if name in list[i].names {
          recent := recent[agent := list[..i] + list[i + 1..]];
          return Some(list[i].searchId);
        }
      }
      NothingToScanAt(list, name, cutoff);
      return None;
    }
  }
}
