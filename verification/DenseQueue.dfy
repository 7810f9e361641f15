/** The asynchronous side of packages/server/src/context.ts. */
module DenseQueue {
  // Writes and reloads change the notes while a warmup builds the first dense
  // index and, later, re-embedding passes replace it. One event is the code
  // between two awaits. A dense index is known by the notes it was built from.
  // `failedAt` and `built` are history: the generation at which the last failed
  // pass started, and the generation the installed index was built at.

  import opened Text
  import opened Vault

  /** A re-embedding pass at work: its place in the chain, and the notes it read when it started. */
  datatype Pass = Pass(ticket: nat, generation: nat, saw: seq<Note>)

  datatype Warmup =
    | NotWanted
    | Loading
    | Building(seen: nat, saw: Option<seq<Note>>)
    | Finished
    | Failed

  /** A caller waiting in `settled`, with the end of the chain it last looked at. */
  datatype Waiter = Away | AwaitReady(seen: nat) | AwaitTail(seen: nat) | Settled

  datatype State = State(
    notes: seq<Note>, generation: nat,
    dense: Option<seq<Note>>, hasModel: bool, warmup: Warmup,
    running: Option<Pass>, queued: Option<nat>, tail: nat, landed: nat,
    failedAt: Option<nat>, built: Option<nat>, waiter: Waiter)

  datatype Event =
    | Change(renewed: seq<Note>)
    | PassStarts
    | PassLands
    | PassFails
    | ModelLoads
    | WarmupReads
    | WarmupBuilds
    | WarmupFails
    | WaitStarts
    | WaitSeesReady
    | WaitSeesTail

  function Start(notes: seq<Note>, wantsDense: bool): State {
    State(notes, 0, None, false, if wantsDense then Loading else NotWanted, None, None, 0, 0, None, None, Away)
  }

  /** `reindexDense`: nothing before the warmup is done; at most one pass waits to start. */
  function Reindex(s: State): State {
    if !s.hasModel || s.dense.None? then s
    else if s.queued.Some? then s
    else s.(queued := Some(s.tail + 1), tail := s.tail + 1)
  }

  predicate Ready(s: State) {
    s.warmup.NotWanted? || s.warmup.Finished? || s.warmup.Failed?
  }

  /** Whether the event can happen: a pass starts when everything before it in the chain has landed. */
  predicate Enabled(s: State, e: Event) {
    match e
    case Change(_) => true
    case PassStarts => s.queued.Some? && s.running.None? && s.landed + 1 == s.queued.value
    case PassLands => s.running.Some?
    case PassFails => s.running.Some?
    case ModelLoads => s.warmup.Loading?
    case WarmupReads => s.warmup.Building? && s.warmup.saw.None?
    case WarmupBuilds => s.warmup.Building? && s.warmup.saw.Some?
    case WarmupFails => s.warmup.Loading? || s.warmup.Building?
    case WaitStarts => s.waiter.Away? || s.waiter.Settled?
    case WaitSeesReady => s.waiter.AwaitReady? && Ready(s)
    case WaitSeesTail => s.waiter.AwaitTail? && s.landed >= s.waiter.seen
  }

  function Next(s: State, e: Event): State
    requires Enabled(s, e)
  {
    match e
    case Change(renewed) => Reindex(s.(notes := renewed, generation := s.generation + 1))
    case PassStarts => s.(queued := None, running := Some(Pass(s.queued.value, s.generation, s.notes)))
    case PassLands => s.(dense := Some(s.running.value.saw), built := Some(s.running.value.generation), running := None, landed := s.running.value.ticket)
    case PassFails => s.(running := None, landed := s.running.value.ticket, failedAt := Some(s.running.value.generation))
    case ModelLoads => s.(warmup := Building(s.generation, None))
    case WarmupReads => s.(warmup := Building(s.warmup.seen, Some(s.notes)))
    case WarmupBuilds =>
      if s.warmup.seen != s.generation then s.(warmup := Building(s.generation, None))
      else s.(dense := s.warmup.saw, built := Some(s.generation), hasModel := true, warmup := Finished)
    case WarmupFails => s.(warmup := Failed)
    case WaitStarts => s.(waiter := AwaitReady(s.tail))
    case WaitSeesReady => s.(waiter := AwaitTail(s.waiter.seen))
    case WaitSeesTail => if s.waiter.seen != s.tail then s.(waiter := AwaitReady(s.tail)) else s.(waiter := Settled)
  }

  function Step(s: State, e: Event): State {
    if Enabled(s, e) then Next(s, e) else s
  }

  lemma ChangeReindexes(s: State, renewed: seq<Note>)
    ensures Step(s, Change(renewed)) == Reindex(s.(notes := renewed, generation := s.generation + 1))
  {}

  function Run(s: State, events: seq<Event>): State {
    if |events| == 0 then s else Step(Run(s, events[..|events| - 1]), events[|events| - 1])
  }

  // ---- what every event keeps

  /** The chain holds at most one running and one waiting pass, in this order, and nothing before the warmup is done. */
  ghost predicate Chained(s: State) {
    && (s.hasModel <==> s.dense.Some?) && (s.hasModel <==> s.warmup.Finished?)
    && (s.running.Some? || s.queued.Some? ==> s.hasModel)
    && (s.running.Some? ==> s.running.value.ticket == s.landed + 1)
    && (s.queued.Some? ==> s.queued.value == s.tail)
    && s.tail == s.landed + (if s.running.Some? then 1 else 0) + (if s.queued.Some? then 1 else 0)
  }

  /** The pass at work read the notes as they are now. */
  predicate RunsOnTheseNotes(s: State) {
    s.running.Some? && s.running.value.generation == s.generation
  }

  /**
    Once there is a dense index, exactly one of four things holds: it was built
    from the notes as they are now, a pass over them is queued, a pass over them
    is at work, or the pass over them failed.
   */
  ghost predicate Covered(s: State) {
    && (s.dense.None? ==> s.built.None? && s.failedAt.None?)
    && (s.built.Some? ==> s.built.value <= s.generation) && (s.failedAt.Some? ==> s.failedAt.value <= s.generation)
    && (s.built == Some(s.generation) ==> s.dense == Some(s.notes))
    && (s.dense.Some? ==>
          (if s.built == Some(s.generation) then 1 else 0) + (if s.queued.Some? then 1 else 0)
          + (if RunsOnTheseNotes(s) then 1 else 0) + (if s.failedAt == Some(s.generation) then 1 else 0) == 1)
  }

  ghost predicate RunningKnows(s: State) {
    s.running.Some? ==>
      && s.running.value.generation <= s.generation
      && (s.running.value.generation == s.generation ==> s.running.value.saw == s.notes)
      && (s.running.value.generation < s.generation ==> s.queued.Some?)
  }

  ghost predicate WarmupKnows(s: State) {
    s.warmup.Building? ==>
      && s.warmup.seen <= s.generation
      && (s.warmup.seen == s.generation && s.warmup.saw.Some? ==> s.warmup.saw == Some(s.notes))
  }

  ghost predicate WaiterKnows(s: State) {
    match s.waiter
    case Away => true
    case AwaitReady(seen) => seen <= s.tail
    case AwaitTail(seen) => seen <= s.tail && Ready(s)
    case Settled => true
  }

  ghost predicate Sound(s: State) {
    Chained(s) && Covered(s) && RunningKnows(s) && WarmupKnows(s) && WaiterKnows(s)
  }

  lemma StepKeepsChained(s: State, e: Event)
    requires Chained(s) && WarmupKnows(s)
    ensures Chained(Step(s, e))
  {}

  lemma StepKeepsCovered(s: State, e: Event)
    requires Chained(s) && Covered(s) && RunningKnows(s) && WarmupKnows(s)
    ensures Covered(Step(s, e))
  {}

  lemma StepKeepsRunning(s: State, e: Event)
    requires Chained(s) && RunningKnows(s) && WarmupKnows(s)
    ensures RunningKnows(Step(s, e))
  {}

  lemma StepKeepsWarmup(s: State, e: Event)
    requires WarmupKnows(s)
    ensures WarmupKnows(Step(s, e))
  {}

  lemma StepKeepsWaiter(s: State, e: Event)
    requires Chained(s) && WarmupKnows(s) && WaiterKnows(s)
    ensures WaiterKnows(Step(s, e))
  {}

  lemma StepKeepsSound(s: State, e: Event)
    requires Sound(s)
    ensures Sound(Step(s, e))
  {
    hide Step, Chained, Covered, RunningKnows, WarmupKnows, WaiterKnows;
    StepKeepsChained(s, e);
    StepKeepsCovered(s, e);
    StepKeepsRunning(s, e);
    StepKeepsWarmup(s, e);
    StepKeepsWaiter(s, e);
  }

  /** Every state of every run is sound. */
  lemma {:induction false} RunsAreSound(notes: seq<Note>, wantsDense: bool, events: seq<Event>)
    ensures Sound(Run(Start(notes, wantsDense), events))
  {
    hide Sound;
    hide Step;
    if |events| == 0 {
      StartIsSound(notes, wantsDense);
    } else {
      RunsAreSound(notes, wantsDense, events[..|events| - 1]);
      StepKeepsSound(Run(Start(notes, wantsDense), events[..|events| - 1]), events[|events| - 1]);
    }
  }

  lemma StartIsSound(notes: seq<Note>, wantsDense: bool)
    ensures Sound(Start(notes, wantsDense))
  {}

  // ---- what that means

  /** How many embedding passes are at work. */
  function InFlight(s: State): nat {
    (if s.running.Some? then 1 else 0) + (if s.warmup.Building? then 1 else 0)
  }

  /** At no point of any run are two embedding passes at work, warmup included. */
  lemma OnePassAtATime(notes: seq<Note>, wantsDense: bool, events: seq<Event>)
    ensures InFlight(Run(Start(notes, wantsDense), events)) <= 1
  {
    hide Run;
    hide Start;
    RunsAreSound(notes, wantsDense, events);
  }

  /** Changes ride on the pass that waits: however many arrive, at most two passes are outstanding. */
  lemma ChangesCoalesce(notes: seq<Note>, wantsDense: bool, events: seq<Event>)
    ensures var s := Run(Start(notes, wantsDense), events); s.landed <= s.tail <= s.landed + 2
  {
    hide Run;
    hide Start;
    RunsAreSound(notes, wantsDense, events);
  }

  predicate OnlyChanges(events: seq<Event>) {
    forall i :: 0 <= i < |events| ==> events[i].Change?
  }

  lemma OneChange(s: State, e: Event)
    requires Sound(s) && s.dense.Some? && e.Change?
    ensures var t := Step(s, e);
      && Sound(t) && t.dense == s.dense && t.running == s.running && t.landed == s.landed
      && t.queued == Some(if s.queued.Some? then s.queued.value else s.tail + 1) && Some(t.tail) == t.queued
  {
    StepKeepsSound(s, e);
  }

  /** However many changes arrive in a row, one pass is queued for all of them: the one that waits, or a new one at the end of the chain. */
  lemma {:induction false} BurstRidesOnOnePass(s: State, changes: seq<Event>)
    requires Sound(s) && s.dense.Some? && |changes| > 0 && OnlyChanges(changes)
    ensures var t := Run(s, changes);
      && Sound(t) && t.dense == s.dense && t.running == s.running && t.landed == s.landed
      && t.queued == Some(if s.queued.Some? then s.queued.value else s.tail + 1) && Some(t.tail) == t.queued
  {
    hide Sound;
    hide Step;
    var before, last := changes[..|changes| - 1], changes[|changes| - 1];
    if |before| > 0 {
      BurstRidesOnOnePass(s, before);
    }
    OneChange(Run(s, before), last);
  }

  /**
    In every run, the event that lets a waiter go leaves no pass queued or
    running; and then the dense index, when there is one, was built from the
    notes as they are served now exactly unless the pass over these notes failed.
   */
  lemma SettledMeansServed(notes: seq<Note>, wantsDense: bool, events: seq<Event>, last: Event)
    requires var s := Run(Start(notes, wantsDense), events);
      s.waiter.AwaitTail? && Step(s, last).waiter.Settled?
    ensures var s := Step(Run(Start(notes, wantsDense), events), last);
      && s.queued.None? && s.running.None? && Ready(s)
      && (s.warmup.Finished? ==> (s.built == Some(s.generation) <==> s.failedAt != Some(s.generation)))
      && (s.built == Some(s.generation) ==> s.dense == Some(s.notes))
  {
    hide Run;
    hide Start;
    RunsAreSound(notes, wantsDense, events);
  }

  // ---- failures, and nothing else, keep the index from being current

  predicate NoPassFails(events: seq<Event>) {
    forall i :: 0 <= i < |events| ==> !events[i].PassFails?
  }

  predicate NoFailure(events: seq<Event>) {
    forall i :: 0 <= i < |events| ==> !events[i].PassFails? && !events[i].WarmupFails?
  }

  lemma {:induction false} NoFailureNoMark(notes: seq<Note>, wantsDense: bool, events: seq<Event>)
    requires NoPassFails(events)
    ensures Run(Start(notes, wantsDense), events).failedAt.None?
  {
    if |events| > 0 { NoFailureNoMark(notes, wantsDense, events[..|events| - 1]); }
  }

  lemma WarmupStep(s: State, e: Event)
    ensures Step(s, e).warmup.Failed? ==> s.warmup.Failed? || e.WarmupFails?
    ensures s.warmup.NotWanted? <==> Step(s, e).warmup.NotWanted?
  {}

  /** A warmup gives up only where building the index failed, never because a change overtook it; and it was wanted from the start or never. */
  lemma {:induction false} OnlyAFailureEndsTheWarmup(notes: seq<Note>, wantsDense: bool, events: seq<Event>)
    ensures Run(Start(notes, wantsDense), events).warmup.Failed? ==> exists i :: 0 <= i < |events| && events[i].WarmupFails?
    ensures Run(Start(notes, wantsDense), events).warmup.NotWanted? <==> !wantsDense
  {
    hide Step;
    if |events| > 0 {
      var before, last := events[..|events| - 1], events[|events| - 1];
      OnlyAFailureEndsTheWarmup(notes, wantsDense, before);
      WarmupStep(Run(Start(notes, wantsDense), before), last);
      if i :| 0 <= i < |before| && before[i].WarmupFails? { assert events[i].WarmupFails?; }
    }
  }

  /** When no pass fails, a settled server whose warmup finished serves the dense index of its own notes. */
  lemma SettledWithoutPassFailure(notes: seq<Note>, wantsDense: bool, events: seq<Event>, last: Event)
    requires NoPassFails(events)
    requires var s := Run(Start(notes, wantsDense), events);
      s.waiter.AwaitTail? && Step(s, last).waiter.Settled? && s.warmup.Finished?
    ensures var s := Step(Run(Start(notes, wantsDense), events), last); s.dense == Some(s.notes)
  {
    hide Run;
    hide Start;
    NoFailureNoMark(notes, wantsDense, events);
    SettledMeansServed(notes, wantsDense, events, last);
  }

  /** When nothing fails, a settled server that wants a dense index has finished its warmup and serves the dense index of its own notes. */
  lemma SettledWithoutFailure(notes: seq<Note>, events: seq<Event>, last: Event)
    requires NoFailure(events)
    requires var s := Run(Start(notes, true), events);
      s.waiter.AwaitTail? && Step(s, last).waiter.Settled?
    ensures var s := Step(Run(Start(notes, true), events), last); s.warmup.Finished? && s.dense == Some(s.notes)
  {
    hide Run;
    hide Start;
    NoFailureNoMark(notes, true, events);
    OnlyAFailureEndsTheWarmup(notes, true, events);
    SettledMeansServed(notes, true, events, last);
  }

  /** One event at a time, from the left. */
  lemma {:induction false} RunFrom(s: State, first: Event, rest: seq<Event>)
    ensures Run(s, [first] + rest) == Run(Step(s, first), rest)
  {
    var events := [first] + rest;
    if |rest| == 0 {
      assert events[..0] == [];
    } else {
      RunFrom(s, first, rest[..|rest| - 1]);
      assert events[..|events| - 1] == [first] + rest[..|rest| - 1];
    }
  }

  const WARM: seq<Event> := [ModelLoads, WarmupReads, WarmupBuilds]
  const WAIT: seq<Event> := [WaitStarts, WaitSeesReady, WaitSeesTail]

  function FailingPass(renewed: seq<Note>): seq<Event> {
    [Change(renewed), PassStarts, PassFails]
  }

  lemma RunThree(s: State, a: Event, b: Event, c: Event, rest: seq<Event>)
    ensures Run(s, [a, b, c] + rest) == Run(Step(Step(Step(s, a), b), c), rest)
  {
    assert [a, b, c] + rest == [a] + ([b] + ([c] + rest));
    RunFrom(s, a, [b] + ([c] + rest));
    RunFrom(Step(s, a), b, [c] + rest);
    RunFrom(Step(Step(s, a), b), c, rest);
  }

  /** The state of a server whose warmup is done. */
  function Warm(notes: seq<Note>): State {
    State(notes, 0, Some(notes), true, Finished, None, None, 0, 0, None, Some(0), Away)
  }

  function Stale(before: seq<Note>, renewed: seq<Note>): State {
    State(renewed, 1, Some(before), true, Finished, None, None, 1, 1, Some(1), Some(0), Away)
  }

  lemma WarmUp(notes: seq<Note>)
    ensures Step(Step(Step(Start(notes, true), ModelLoads), WarmupReads), WarmupBuilds) == Warm(notes)
  {
    assert Step(Start(notes, true), ModelLoads) == Start(notes, true).(warmup := Building(0, None));
  }

  /** A server whose notes have changed and whose pass has not started: the state every write leaves for a while. */
  function Outdated(before: seq<Note>, renewed: seq<Note>): State {
    Warm(before).(notes := renewed, generation := 1, queued := Some(1), tail := 1)
  }

  lemma WriteOutdates(before: seq<Note>, renewed: seq<Note>)
    ensures Run(Start(before, true), WARM + [Change(renewed)]) == Outdated(before, renewed)
  {
    hide Run;
    hide Step;
    hide Start;
    WarmUp(before);
    RunThree(Start(before, true), ModelLoads, WarmupReads, WarmupBuilds, [Change(renewed)]);
    RunFrom(Warm(before), Change(renewed), []);
    assert [Change(renewed)] + [] == [Change(renewed)];
    RunNone(Step(Warm(before), Change(renewed)));
    ChangeOutdates(before, renewed);
  }

  lemma ChangeOutdates(before: seq<Note>, renewed: seq<Note>)
    ensures Step(Warm(before), Change(renewed)) == Outdated(before, renewed)
  {}

  lemma FailOnce(before: seq<Note>, renewed: seq<Note>)
    ensures Step(Step(Step(Warm(before), Change(renewed)), PassStarts), PassFails) == Stale(before, renewed)
  {
    assert Step(Warm(before), Change(renewed)) == Warm(before).(notes := renewed, generation := 1, queued := Some(1), tail := 1);
  }

  lemma WaitOut(before: seq<Note>, renewed: seq<Note>)
    ensures Step(Step(Step(Stale(before, renewed), WaitStarts), WaitSeesReady), WaitSeesTail) == Stale(before, renewed).(waiter := Settled)
  {
    assert Step(Stale(before, renewed), WaitStarts) == Stale(before, renewed).(waiter := AwaitReady(1));
  }

  /** A failed pass leaves the index stale for good when nothing else changes: the exception above is real. */
  lemma FailureStaysStale(before: seq<Note>, renewed: seq<Note>)
    requires before != renewed
    ensures var s := Run(Start(before, true), WARM + (FailingPass(renewed) + WAIT));
      s.waiter.Settled? && s.warmup.Finished? && s.dense == Some(before) && s.notes == renewed && s.dense != Some(s.notes)
  {
    hide Run;
    hide Step;
    hide Start;
    WarmUp(before);
    FailOnce(before, renewed);
    WaitOut(before, renewed);
    RunThree(Start(before, true), ModelLoads, WarmupReads, WarmupBuilds, FailingPass(renewed) + WAIT);
    RunThree(Warm(before), Change(renewed), PassStarts, PassFails, WAIT);
    RunThree(Stale(before, renewed), WaitStarts, WaitSeesReady, WaitSeesTail, []);
    assert WAIT + [] == WAIT;
    RunNone(Stale(before, renewed).(waiter := Settled));
  }

  lemma RunNone(s: State)
    ensures Run(s, []) == s
  {}

  /** The next change after a failure queues a pass again. */
  lemma ChangeHealsFailure(notes: seq<Note>, wantsDense: bool, events: seq<Event>, renewed: seq<Note>)
    ensures var s := Step(Run(Start(notes, wantsDense), events), Change(renewed));
      s.dense.Some? ==> s.queued.Some?
  {
    hide Run;
    hide Start;
    RunsAreSound(notes, wantsDense, events);
  }

  // ---- nothing gets stuck

  lemma {:induction false} RunConcat(s: State, a: seq<Event>, b: seq<Event>)
    ensures Run(s, a + b) == Run(Run(s, a), b)
  {
    if |b| == 0 {
      assert a + b == a;
    } else {
      RunConcat(s, a, b[..|b| - 1]);
      assert (a + b)[..|a + b| - 1] == a + b[..|b| - 1];
    }
  }

  lemma RunOne(s: State, e: Event)
    ensures Run(s, [e]) == Step(s, e)
  {
    assert [e][..0] == [];
  }

  /** What is left of a warmup under way when no further change comes: one more build at most if a change overtook this one. */
  function RestOfWarmup(s: State): seq<Event> {
    match s.warmup
    case Loading => [ModelLoads, WarmupReads, WarmupBuilds]
    case Building(seen, saw) =>
      (if saw.None? then [WarmupReads] else []) + [WarmupBuilds] + (if seen != s.generation then [WarmupReads, WarmupBuilds] else [])
    case _ => []
  }

  lemma ReadAndBuild(s: State)
    requires Sound(s) && s.warmup.Building? && s.warmup.saw.None? && s.warmup.seen == s.generation
    ensures var t := Run(s, [WarmupReads, WarmupBuilds]); t.warmup.Finished? && t.dense == Some(s.notes)
  {
    hide Sound;
    RunOne(s, WarmupReads);
    RunConcat(s, [WarmupReads], [WarmupBuilds]);
    RunOne(Step(s, WarmupReads), WarmupBuilds);
    assert [WarmupReads] + [WarmupBuilds] == [WarmupReads, WarmupBuilds];
  }

  /** From any sound state a warmup under way ends finished, with the index of the served notes, once changes stop and nothing fails. */
  lemma WarmupEnds(s: State)
    requires Sound(s) && (s.warmup.Loading? || s.warmup.Building?)
    ensures var t := Run(s, RestOfWarmup(s)); t.warmup.Finished? && t.dense == Some(s.notes) && t.notes == s.notes && t.generation == s.generation && t.waiter == s.waiter
    ensures |RestOfWarmup(s)| <= 4
  {
    if s.warmup.Loading? {
      RunThree(s, ModelLoads, WarmupReads, WarmupBuilds, []);
      assert [ModelLoads, WarmupReads, WarmupBuilds] + [] == [ModelLoads, WarmupReads, WarmupBuilds];
    } else {
      BuildEnds(s);
    }
  }

  lemma BuildEnds(s: State)
    requires Sound(s) && s.warmup.Building?
    ensures var t := Run(s, RestOfWarmup(s)); t.warmup.Finished? && t.dense == Some(s.notes) && t.notes == s.notes && t.generation == s.generation && t.waiter == s.waiter
  {
    hide Run;
    hide Covered;
    var first := if s.warmup.saw.None? then [WarmupReads] else [];
    var again := if s.warmup.seen != s.generation then [WarmupReads, WarmupBuilds] else [];
    RunConcat(s, first + [WarmupBuilds], again);
    RunConcat(s, first, [WarmupBuilds]);
    RunNone(s);
    RunOne(s, WarmupReads);
    var read := Run(s, first);
    RunOne(read, WarmupBuilds);
    var built := Step(read, WarmupBuilds);
    RunNone(built);
    RunOne(built, WarmupReads);
    RunConcat(built, [WarmupReads], [WarmupBuilds]);
    RunOne(Step(built, WarmupReads), WarmupBuilds);
    assert [WarmupReads] + [WarmupBuilds] == [WarmupReads, WarmupBuilds];
  }

  /** What is left of the queue when no further change comes: the pass at work, then the one that waits. */
  function RestOfQueue(s: State): seq<Event> {
    (if s.running.Some? then [PassLands] else []) + (if s.queued.Some? then [PassStarts, PassLands] else [])
  }

  /** From any sound state the passes run dry, and if any was left the index is then that of the served notes. */
  lemma QueueRunsDry(s: State)
    requires Sound(s)
    ensures var t := Run(s, RestOfQueue(s));
      && t.running.None? && t.queued.None? && t.landed == t.tail && t.notes == s.notes && t.generation == s.generation
      && t.warmup == s.warmup && t.waiter == s.waiter
      && (s.queued.Some? || RunsOnTheseNotes(s) ==> t.dense == Some(s.notes))
  {
    hide Run;
    hide Covered;
    var first := if s.running.Some? then [PassLands] else [];
    var second := if s.queued.Some? then [PassStarts, PassLands] else [];
    RunConcat(s, first, second);
    RunNone(s);
    RunOne(s, PassLands);
    var t := Run(s, first);
    RunNone(t);
    RunConcat(t, [PassStarts], [PassLands]);
    RunOne(t, PassStarts);
    RunOne(Step(t, PassStarts), PassLands);
    assert [PassStarts] + [PassLands] == [PassStarts, PassLands];
  }

  /** A caller that waits is let go once the warmup is done and no pass is left, after looking at the chain at most twice. */
  function RestOfWait(s: State): seq<Event> {
    match s.waiter
    case AwaitReady(seen) => [WaitSeesReady, WaitSeesTail] + (if seen != s.tail then [WaitSeesReady, WaitSeesTail] else [])
    case AwaitTail(seen) => [WaitSeesTail] + (if seen != s.tail then [WaitSeesReady, WaitSeesTail] else [])
    case _ => []
  }

  lemma LookTwice(s: State)
    requires s.waiter.AwaitReady? && s.waiter.seen <= s.tail == s.landed && Ready(s)
    ensures Run(s, [WaitSeesReady, WaitSeesTail])
         == s.(waiter := if s.waiter.seen != s.tail then AwaitReady(s.tail) else Settled)
  {
    hide Run;
    RunConcat(s, [WaitSeesReady], [WaitSeesTail]);
    RunOne(s, WaitSeesReady);
    RunOne(Step(s, WaitSeesReady), WaitSeesTail);
    assert [WaitSeesReady] + [WaitSeesTail] == [WaitSeesReady, WaitSeesTail];
  }

  lemma WaitEnds(s: State)
    requires Sound(s) && Ready(s) && s.landed == s.tail && (s.waiter.AwaitReady? || s.waiter.AwaitTail?)
    ensures Run(s, RestOfWait(s)) == s.(waiter := Settled)
  {
    hide Run;
    hide Covered;
    var first := if s.waiter.AwaitReady? then [WaitSeesReady, WaitSeesTail] else [WaitSeesTail];
    var second := if s.waiter.seen != s.tail then [WaitSeesReady, WaitSeesTail] else [];
    RunConcat(s, first, second);
    RunOne(s, WaitSeesTail);
    if s.waiter.AwaitReady? { LookTwice(s); }
    var t := Run(s, first);
    if s.waiter.seen != s.tail { LookTwice(t); } else { RunNone(t); }
  }

  /** Nothing changes and nothing fails. */
  predicate OnlyProgress(events: seq<Event>) {
    forall i :: 0 <= i < |events| ==> !events[i].Change? && !events[i].PassFails? && !events[i].WarmupFails?
  }

  lemma {:induction false} RunKeepsSound(s: State, events: seq<Event>)
    requires Sound(s)
    ensures Sound(Run(s, events))
  {
    hide Sound;
    hide Step;
    if |events| > 0 {
      RunKeepsSound(s, events[..|events| - 1]);
      StepKeepsSound(Run(s, events[..|events| - 1]), events[|events| - 1]);
    }
  }

  lemma RestsAreProgress(s: State)
    ensures OnlyProgress(RestOfWarmup(s)) && OnlyProgress(RestOfQueue(s)) && OnlyProgress(RestOfWait(s))
  {}

  lemma WarmupDone(s: State)
    requires Sound(s)
    ensures var t := Run(s, RestOfWarmup(s));
      && Ready(t) && t.waiter == s.waiter && t.notes == s.notes
      && (if s.warmup.Loading? || s.warmup.Building? then t.dense == Some(s.notes) && Run(t, RestOfQueue(t)) == t else t == s)
  {
    if s.warmup.Loading? || s.warmup.Building? {
      WarmupEnds(s);
      RunKeepsSound(s, RestOfWarmup(s));
      FinishedIdle(Run(s, RestOfWarmup(s)));
      WarmupIdle(s);
      WarmupLeavesQueue(s, RestOfWarmup(s));
      RunNone(Run(s, RestOfWarmup(s)));
    } else {
      RunNone(s);
    }
  }

  lemma WarmupIdle(s: State)
    requires Sound(s) && !s.warmup.Finished?
    ensures s.running.None? && s.queued.None?
  {}

  lemma FinishedIdle(t: State)
    ensures t.running.None? && t.queued.None? ==> RestOfQueue(t) == []
  {}

  lemma {:induction false} WarmupLeavesQueue(s: State, events: seq<Event>)
    requires forall i :: 0 <= i < |events| ==> events[i].ModelLoads? || events[i].WarmupReads? || events[i].WarmupBuilds?
    ensures Run(s, events).running == s.running && Run(s, events).queued == s.queued
  {
    if |events| > 0 { WarmupLeavesQueue(s, events[..|events| - 1]); }
  }

  /** The caller is let go, and the index is that of the served notes if there was anything left to do about it. */
  predicate EndsWell(s: State, t: State) {
    && t.waiter.Settled? && t.notes == s.notes
    && (s.warmup.Loading? || s.warmup.Building? || s.queued.Some? || RunsOnTheseNotes(s) ==> t.dense == Some(s.notes))
  }

  lemma EndsWellIs(s: State, t: State, u: State)
    requires t.notes == s.notes && u.notes == t.notes
    requires if s.warmup.Loading? || s.warmup.Building? then t.dense == Some(s.notes) && u == t else t == s
    requires t.queued.Some? || RunsOnTheseNotes(t) ==> u.dense == Some(t.notes)
    ensures EndsWell(s, u.(waiter := Settled))
  {}

  /**
    From any sound state a waiting caller is let go in some run without changes
    and failures; and if the warmup was under way, or a pass over the served
    notes was due or at work, the index is then that of the served notes.
   */
  lemma EveryWaitCanEnd(s: State)
    requires Sound(s) && (s.waiter.AwaitReady? || s.waiter.AwaitTail?)
    ensures exists events :: OnlyProgress(events) && EndsWell(s, Run(s, events))
  {
    hide *;
    var first := RestOfWarmup(s);
    var t := Run(s, first);
    var second := RestOfQueue(t);
    var u := Run(t, second);
    var third := RestOfWait(u);
    WarmupDone(s);
    RunKeepsSound(s, first);
    QueueRunsDry(t);
    RunKeepsSound(t, second);
    ReadyStays(t, u);
    WaitEnds(u);
    RestsAreProgress(s);
    RestsAreProgress(t);
    RestsAreProgress(u);
    RunConcat(s, first, second);
    RunConcat(s, first + second, third);
    ProgressConcat(first, second);
    ProgressConcat(first + second, third);
    EndsWellIs(s, t, u);
    assert OnlyProgress(first + second + third) && EndsWell(s, Run(s, first + second + third));
  }

  lemma ReadyStays(t: State, u: State)
    requires Ready(t) && u.warmup == t.warmup
    ensures Ready(u)
  {}

  lemma ProgressConcat(a: seq<Event>, b: seq<Event>)
    requires OnlyProgress(a) && OnlyProgress(b)
    ensures OnlyProgress(a + b)
  {}
}
