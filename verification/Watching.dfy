/** The vault watcher of packages/server/src/watch.ts. */
module Watching {
  // Its events are a change on disk, a timer going off, the end of a call of
  // `onChange`, and closing; they may come in any order. A timer stays live until
  // it fires or is cleared, whether or not the watcher's variable still names it.

  import opened Text

  datatype State = State(
    pending: set<string>,     // paths changed since the last call took them
    live: set<nat>,           // timers that will fire
    timer: Option<nat>,       // the timer the watcher knows of
    next: nat,                // the next timer's number
    running: bool,
    again: bool,
    closed: bool,
    calls: seq<set<string>>,  // what each call of `onChange` was given
    ended: nat,               // how many of the calls have ended
    edits: nat)               // relevant changes seen

  const START := State({}, {}, None, 0, false, false, false, [], 0, 0)

  datatype Event = Change(path: string) | Fire(id: nat) | End | Close

  predicate Possible(s: State, e: Event) {
    match e
    case Fire(id) => id in s.live
    case End => s.ended < |s.calls|
    case _ => true
  }

  function Flush(s: State): State {
    var s := s.(timer := None);
    if s.closed then s
    else if s.running then s.(again := true)
    else s.(pending := {}, running := true, calls := s.calls + [s.pending])
  }

  function Cleared(s: State): set<nat> {
    if s.timer.Some? then s.live - {s.timer.value} else s.live
  }

  function Step(s: State, e: Event): State {
    match e
    case Change(p) => s.(pending := s.pending + {p}, live := Cleared(s) + {s.next}, timer := Some(s.next), next := s.next + 1, edits := s.edits + 1)
    case Fire(id) => Flush(s.(live := s.live - {id}))
    case End =>
      var s := s.(ended := s.ended + 1, running := false);
      if s.again then Flush(s.(again := false)) else s
    case Close => s.(closed := true, live := Cleared(s))
  }

  // ---- what every event keeps

  /** A call is under way exactly while `running` is set, and never two. */
  predicate OneCall(s: State) {
    |s.calls| == s.ended + (if s.running then 1 else 0) && (s.again ==> s.running)
  }

  predicate TimersKnown(s: State) {
    && (forall id :: id in s.live ==> id < s.next)
    && (s.timer.Some? ==> s.timer.value < s.next)
    && (!s.closed && s.timer.Some? ==> s.timer.value in s.live && s.pending != {})
  }

  /** While open, a changed path will be picked up: a timer will fire, or a call that runs is to be followed by another. */
  predicate NothingStranded(s: State) {
    !s.closed && s.pending != {} ==> s.live != {} || s.again
  }

  /** Each edit pays for one timer, one request for another call, or one call. */
  predicate Paid(s: State) {
    |s.calls| + |s.live| + (if s.again then 1 else 0) <= s.edits
  }

  predicate Safe(s: State) {
    OneCall(s) && TimersKnown(s) && NothingStranded(s) && Paid(s)
  }

  lemma {:induction false} SmallerSet(a: set<nat>, b: set<nat>)
    requires a <= b
    ensures |a| <= |b|
  {
    assert b == a + (b - a);
  }

  lemma ChangeKeepsSafe(s: State, p: string)
    requires Safe(s)
    ensures Safe(Step(s, Change(p)))
  {
    SmallerSet(Cleared(s), s.live);
    assert s.next !in Cleared(s);
    assert |Cleared(s) + {s.next}| == |Cleared(s)| + 1;
  }

  lemma FireKeepsSafe(s: State, id: nat)
    requires Safe(s) && id in s.live
    ensures Safe(Step(s, Fire(id)))
  {
    assert |s.live - {id}| == |s.live| - 1;
  }

  lemma StepKeepsSafe(s: State, e: Event)
    requires Safe(s) && Possible(s, e)
    ensures Safe(Step(s, e))
  {
    match e {
      case Change(p) => ChangeKeepsSafe(s, p);
      case Fire(id) => FireKeepsSafe(s, id);
      case End =>
      case Close => SmallerSet(Cleared(s), s.live);
    }
  }

  // ---- runs

  predicate Run(s: State, events: seq<Event>)
    decreases |events|
  {
    events == [] || (Possible(s, events[0]) && Run(Step(s, events[0]), events[1..]))
  }

  function After(s: State, events: seq<Event>): State
    decreases |events|
  {
    if events == [] then s else After(Step(s, events[0]), events[1..])
  }

  lemma {:induction false} RunKeepsSafe(s: State, events: seq<Event>)
    requires Safe(s) && Run(s, events)
    ensures Safe(After(s, events))
    decreases |events|
  {
    hide Safe, Step, Possible;
    if events != [] {
      StepKeepsSafe(s, events[0]);
      RunKeepsSafe(Step(s, events[0]), events[1..]);
    }
  }

  /**
    In every run: at most one call at a time, no more calls than edits, and while the
    watcher is open a changed path has a live timer or a running call that
    is to be followed by another; so when nothing is under way, nothing is left over.
   */
  lemma RunsAreSafe(events: seq<Event>)
    requires Run(START, events)
    ensures var s := After(START, events);
            && s.ended <= |s.calls| <= s.ended + 1
            && |s.calls| <= s.edits
            && (!s.closed && s.pending != {} ==> s.live != {} || (s.running && s.again))
            && (!s.closed && s.live == {} && !s.running ==> s.pending == {})
  {
    hide Step, Possible;
    assert Safe(START);
    RunKeepsSafe(START, events);
  }

  /** Some call after the first `n` was given the path. */
  predicate GivenSince(s: State, n: nat, p: string) {
    exists k :: n <= k < |s.calls| && p in s.calls[k]
  }

  lemma StepKeepsPath(s: State, e: Event, p: string, n: nat)
    requires n <= |s.calls| && (p in s.pending || GivenSince(s, n, p))
    ensures n <= |Step(s, e).calls| && (p in Step(s, e).pending || GivenSince(Step(s, e), n, p))
  {
    var t := Step(s, e);
    if GivenSince(s, n, p) {
      var k :| n <= k < |s.calls| && p in s.calls[k];
      assert t.calls[k] == s.calls[k];
    } else if p !in t.pending {
      assert t.calls[|s.calls|] == s.pending;
    }
  }

  /** A path that waits still waits, or a call has been given it since. */
  lemma {:induction false} PathIsKept(s: State, events: seq<Event>, p: string, n: nat)
    requires n <= |s.calls| && (p in s.pending || GivenSince(s, n, p))
    ensures p in After(s, events).pending || GivenSince(After(s, events), n, p)
    decreases |events|
  {
    hide GivenSince, Step;
    if events != [] {
      StepKeepsPath(s, events[0], p, n);
      PathIsKept(Step(s, events[0]), events[1..], p, n);
    }
  }

  lemma {:induction false} RunSplit(s: State, a: seq<Event>, b: seq<Event>)
    requires Run(s, a + b)
    ensures Run(s, a) && Run(After(s, a), b) && After(s, a + b) == After(After(s, a), b)
    decreases |a|
  {
    if a == [] {
      assert a + b == b;
    } else {
      assert (a + b)[1..] == a[1..] + b;
      RunSplit(Step(s, a[0]), a[1..], b);
    }
  }

  /**
    No edit is lost: after a change, in any run that ends with the watcher open, no
    timer live and no call running, some call begun after the change was given the path.
   */
  lemma NoEditLost(before: seq<Event>, p: string, later: seq<Event>)
    requires Run(START, before + ([Change(p)] + later))
    ensures var s := After(START, before);
            var end := After(START, before + ([Change(p)] + later));
            !end.closed && end.live == {} && !end.running ==> GivenSince(end, |s.calls|, p)
  {
    hide Step, Possible, GivenSince, Safe;
    RunsAreSafe(before + ([Change(p)] + later));
    RunSplit(START, before, [Change(p)] + later);
    var s := After(START, before);
    ChangeIsPending(s, p);
    assert ([Change(p)] + later)[1..] == later;
    PathIsKept(Step(s, Change(p)), later, p, |s.calls|);
  }

  lemma ChangeIsPending(s: State, p: string)
    ensures p in Step(s, Change(p)).pending && Step(s, Change(p)).calls == s.calls
  {}

  // ---- a burst

  function Changes(paths: seq<string>): seq<Event> {
    seq(|paths|, i requires 0 <= i < |paths| => Change(paths[i]))
  }

  /** While every live timer is the one known, changes in a row leave one, whatever they find pending. */
  lemma {:induction false} ChangesLeaveOneTimer(s: State, paths: seq<string>)
    requires paths != [] && TimersKnown(s) && forall id :: id in s.live ==> s.timer == Some(id)
    ensures Run(s, Changes(paths))
    ensures var t, last := After(s, Changes(paths)), s.next + |paths| - 1;
      && t.live == {last} && t.timer == Some(last) && t.next == last + 1
      && t.pending == s.pending + (set p | p in paths)
      && t.calls == s.calls && t.running == s.running && t.again == s.again && t.closed == s.closed
    decreases |paths|
  {
    var t := Step(s, Change(paths[0]));
    var rest := Changes(paths)[1..];
    assert rest == Changes(paths[1..]);
    assert Cleared(s) == {};
    assert t.live == {s.next};
    if |paths| == 1 {
      assert rest == [] && paths == [paths[0]];
    } else {
      OneKnown(t);
      ChangesLeaveOneTimer(t, paths[1..]);
      assert forall p :: p in paths <==> p == paths[0] || p in paths[1..];
    }
  }

  lemma OneKnown(t: State)
    requires t.timer.Some? && t.live == {t.timer.value} && t.timer.value < t.next && t.pending != {}
    ensures TimersKnown(t)
  {}

  /** A burst of changes is one call: when its timer fires on an open, idle watcher, the call is given every path of it and all that was pending. */
  lemma BurstIsOneCall(s: State, paths: seq<string>)
    requires paths != [] && TimersKnown(s) && forall id :: id in s.live ==> s.timer == Some(id)
    requires !s.closed && !s.running
    ensures var last := s.next + |paths| - 1;
      var end := After(s, Changes(paths) + [Fire(last)]);
      && Run(s, Changes(paths) + [Fire(last)])
      && end.calls == s.calls + [s.pending + (set p | p in paths)] && end.live == {} && end.pending == {} && end.running
  {
    hide *;
    ChangesLeaveOneTimer(s, paths);
    var last := s.next + |paths| - 1;
    FiresAlone(After(s, Changes(paths)), last);
    RunsOn(s, Changes(paths), [Fire(last)]);
  }

  lemma FiresAlone(t: State, id: nat)
    requires t.live == {id} && !t.closed && !t.running
    ensures var end := After(t, [Fire(id)]);
      Run(t, [Fire(id)]) && end.calls == t.calls + [t.pending] && end.live == {} && end.pending == {} && end.running
  {
    RunStep(t, Fire(id), []);
    assert [Fire(id)] + [] == [Fire(id)];
  }

  lemma {:induction false} RunsOn(s: State, a: seq<Event>, b: seq<Event>)
    requires Run(s, a) && Run(After(s, a), b)
    ensures Run(s, a + b) && After(s, a + b) == After(After(s, a), b)
    decreases |a|
  {
    if a == [] {
      assert a + b == b;
    } else {
      RunsOn(Step(s, a[0]), a[1..], b);
      assert (a + b)[1..] == a[1..] + b;
    }
  }

  /** Once closed, no further call begins. */
  lemma {:induction false} ClosedIsQuiet(s: State, events: seq<Event>)
    requires s.closed
    ensures After(s, events).closed && After(s, events).calls == s.calls
    decreases |events|
  {
    hide Step;
    if events != [] {
      ClosedStep(s, events[0]);
      ClosedIsQuiet(Step(s, events[0]), events[1..]);
    }
  }

  lemma ClosedStep(s: State, e: Event)
    requires s.closed
    ensures Step(s, e).closed && Step(s, e).calls == s.calls
  {}

  // ---- calls for nothing

  /** The end of a call makes the watcher forget a timer that is still live. */
  predicate ForgetsATimer(s: State, e: Event) {
    e.End? && s.again && s.timer.Some?
  }

  ghost predicate NoneForgotten(s: State, events: seq<Event>)
    decreases |events|
  {
    events == [] || (!ForgetsATimer(s, events[0]) && NoneForgotten(Step(s, events[0]), events[1..]))
  }

  predicate AllCallsHaveWork(s: State) {
    forall k :: 0 <= k < |s.calls| ==> s.calls[k] != {}
  }

  /** Every live timer is the one known, and a call to come has something to do. */
  predicate Tidy(s: State) {
    && (forall id :: id in s.live ==> s.timer == Some(id))
    && (!s.closed && (s.timer.Some? || s.again) ==> s.pending != {})
    && AllCallsHaveWork(s)
  }

  lemma TidyStep(s: State, e: Event)
    requires Tidy(s) && Safe(s) && Possible(s, e) && !ForgetsATimer(s, e)
    ensures Tidy(Step(s, e))
  {
    hide Paid, NothingStranded;
  }

  /** As long as no live timer is forgotten, every call is given something that changed. */
  lemma {:induction false} CallsHaveWork(s: State, events: seq<Event>)
    requires Tidy(s) && Safe(s) && Run(s, events) && NoneForgotten(s, events)
    ensures AllCallsHaveWork(After(s, events))
    decreases |events|
  {
    hide Safe, Step, Possible, ForgetsATimer;
    if events != [] {
      TidyStep(s, events[0]);
      StepKeepsSafe(s, events[0]);
      CallsHaveWork(Step(s, events[0]), events[1..]);
    }
  }

  /** After one call has begun and the next edit's timer has fired. */
  function Midway(): State {
    State({"b"}, {}, None, 2, true, true, false, [{"a"}], 0, 2)
  }

  lemma ToMidway()
    ensures var events := [Change("a"), Fire(0), Change("b"), Fire(1)];
            Run(START, events) && After(START, events) == Midway()
  {
    var s1 := Step(START, Change("a"));
    assert s1.pending == {"a"};
    var s2 := Step(s1, Fire(0));
    assert s2.calls == [{"a"}];
    var s3 := Step(s2, Change("b"));
    RunStep(s3, Fire(1), []);
    RunStep(s2, Change("b"), [Fire(1)]);
    RunStep(s1, Fire(0), [Change("b"), Fire(1)]);
    RunStep(START, Change("a"), [Fire(0), Change("b"), Fire(1)]);
  }

  /** A forgotten timer can lead to a call with no change at all: a third edit, after its predecessor's timer fired and before the call ends. */
  lemma ACallForNothing()
    ensures var events := [Change("c"), End, Fire(2), End];
            Run(Midway(), events) && After(Midway(), events).calls == [{"a"}, {"b", "c"}, {}]
  {
    var s5 := Step(Midway(), Change("c"));
    assert s5.pending == {"b", "c"};
    var s6 := Step(s5, End);
    assert s6.calls == [{"a"}, {"b", "c"}];
    var s7 := Step(s6, Fire(2));
    var s8 := Step(s7, End);
    assert s8.calls == [{"a"}, {"b", "c"}, {}];
    RunStep(s7, End, []);
    RunStep(s6, Fire(2), [End]);
    RunStep(s5, End, [Fire(2), End]);
    RunStep(Midway(), Change("c"), [End, Fire(2), End]);
  }

  lemma RunStep(s: State, e: Event, rest: seq<Event>)
    requires Possible(s, e) && Run(Step(s, e), rest)
    ensures Run(s, [e] + rest) && After(s, [e] + rest) == After(Step(s, e), rest)
  {
    assert ([e] + rest)[1..] == rest;
  }

  // ---- exactly when a call for nothing can still come

  predicate NoEdits(events: seq<Event>) {
    forall i :: 0 <= i < |events| ==> !events[i].Change?
  }

  /** Some call after the first `n` was given nothing. */
  predicate EmptySince(s: State, n: nat) {
    exists k :: n <= k < |s.calls| && s.calls[k] == {}
  }

  /** Without a further edit, some run from here makes a call with nothing to do. */
  ghost predicate EmptyCallMayCome(s: State) {
    exists events :: Run(s, events) && NoEdits(events) && EmptySince(After(s, events), |s.calls|)
  }

  /** More flushes are due than there is work for: one if a path is pending, else none. */
  predicate TooManyDue(s: State) {
    |s.live| + (if s.again then 1 else 0) > (if s.pending != {} then 1 else 0)
  }

  /** What keeps calls non-empty: closed, or no more flushes due than there is work for. */
  predicate Enough(s: State) {
    s.closed || !TooManyDue(s)
  }

  lemma StepKeepsEnough(s: State, e: Event, n: nat)
    requires Safe(s) && Possible(s, e) && !e.Change? && Enough(s)
    requires n <= |s.calls| && !EmptySince(s, n)
    ensures Enough(Step(s, e)) && n <= |Step(s, e).calls| && !EmptySince(Step(s, e), n)
  {
    hide Paid, NothingStranded, TimersKnown;
    if e.Fire? { assert |s.live - {e.id}| == |s.live| - 1; }
  }

  lemma {:induction false} RunKeepsEnough(s: State, events: seq<Event>, n: nat)
    requires Safe(s) && Run(s, events) && NoEdits(events) && Enough(s)
    requires n <= |s.calls| && !EmptySince(s, n)
    ensures !EmptySince(After(s, events), n)
    decreases |events|
  {
    hide Safe, Step, Possible, Enough, EmptySince;
    if events != [] {
      assert !events[0].Change?;
      StepKeepsEnough(s, events[0], n);
      StepKeepsSafe(s, events[0]);
      RunKeepsEnough(Step(s, events[0]), events[1..], n);
    }
  }

  /** One more event in front of a run without edits that makes an empty call. */
  lemma EmptyCallAfter(s: State, e: Event)
    requires Possible(s, e) && !e.Change? && |s.calls| <= |Step(s, e).calls| && EmptyCallMayCome(Step(s, e))
    ensures EmptyCallMayCome(s)
  {
    hide Step, Possible, EmptySince;
    var events :| Run(Step(s, e), events) && NoEdits(events) && EmptySince(After(Step(s, e), events), |Step(s, e).calls|);
    RunStep(s, e, events);
    EmptySinceEarlier(After(Step(s, e), events), |s.calls|, |Step(s, e).calls|);
    assert NoEdits([e] + events);
  }

  lemma EmptySinceEarlier(s: State, m: nat, n: nat)
    requires m <= n && EmptySince(s, n)
    ensures EmptySince(s, m)
  {}

  lemma EmptyCallNow(s: State, e: Event)
    requires Possible(s, e) && !e.Change? && EmptySince(Step(s, e), |s.calls|)
    ensures EmptyCallMayCome(s)
  {
    hide Step, Possible, EmptySince;
    RunStep(s, e, []);
    assert [e] + [] == [e];
    assert Run(s, [e]) && NoEdits([e]);
  }

  /** A call runs, another is asked for, and nothing is pending: it ends, and the next is given nothing. */
  lemma AgainForNothing(s: State)
    requires Safe(s) && !s.closed && s.again && s.pending == {}
    ensures EmptyCallMayCome(s)
  {
    hide Paid, NothingStranded, TimersKnown;
    assert Step(s, End).calls[|s.calls|] == {};
    EmptyCallNow(s, End);
  }

  /** Nothing is pending and a timer is live. */
  lemma TimerForNothing(s: State, id: nat)
    requires Safe(s) && !s.closed && id in s.live && s.pending == {}
    ensures EmptyCallMayCome(s)
  {
    hide Paid, NothingStranded, TimersKnown;
    var t := Step(s, Fire(id));
    if s.running {
      StepKeepsSafe(s, Fire(id));
      AgainForNothing(t);
      EmptyCallAfter(s, Fire(id));
    } else {
      assert t.calls[|s.calls|] == {};
      EmptyCallNow(s, Fire(id));
    }
  }

  /** Something is pending, the next call will take it, and a further timer is live. */
  lemma OneTimerTooMany(s: State, id: nat)
    requires Safe(s) && !s.closed && s.again && id in s.live
    ensures EmptyCallMayCome(s)
  {
    hide Paid, NothingStranded, TimersKnown;
    StepKeepsSafe(s, End);
    TimerForNothing(Step(s, End), id);
    EmptyCallAfter(s, End);
  }

  lemma TwoTimers(s: State, id: nat, other: nat)
    requires Safe(s) && !s.closed && id in s.live && other in s.live && id != other
    ensures EmptyCallMayCome(s)
  {
    hide Paid, NothingStranded, TimersKnown;
    StepKeepsSafe(s, Fire(id));
    if s.running {
      OneTimerTooMany(Step(s, Fire(id)), other);
    } else {
      TimerForNothing(Step(s, Fire(id)), other);
    }
    EmptyCallAfter(s, Fire(id));
  }

  lemma TwoMembers(a: set<nat>) returns (x: nat, y: nat)
    requires |a| >= 2
    ensures x in a && y in a && x != y
  {
    x :| x in a;
    assert |a - {x}| == |a| - 1;
    y :| y in a - {x};
  }

  lemma DueMakesEmptyCall(s: State)
    requires Safe(s) && !s.closed && TooManyDue(s)
    ensures EmptyCallMayCome(s)
  {
    hide Safe, EmptyCallMayCome;
    if s.pending == {} {
      if s.again {
        AgainForNothing(s);
      } else {
        var id :| id in s.live;
        TimerForNothing(s, id);
      }
    } else if s.again {
      var id :| id in s.live;
      OneTimerTooMany(s, id);
    } else {
      var id, other := TwoMembers(s.live);
      TwoTimers(s, id, other);
    }
  }

  /**
    From a safe open state, and without a further edit, a call with nothing to do
    can still come exactly when more flushes are due than there is work for.
   */
  lemma EmptyCallExactly(s: State)
    requires Safe(s) && !s.closed
    ensures EmptyCallMayCome(s) <==> TooManyDue(s)
  {
    hide Safe, Run, After, TooManyDue;
    if TooManyDue(s) { DueMakesEmptyCall(s); }
    if EmptyCallMayCome(s) && !TooManyDue(s) {
      var events :| Run(s, events) && NoEdits(events) && EmptySince(After(s, events), |s.calls|);
      RunKeepsEnough(s, events, |s.calls|);
    }
  }

  // ---- the watcher

  /** The watcher's variables, with the timers and the calls they stand for. */
  class VaultWatcher {
    const relevant: string -> bool
    var pending: set<string>
    var timer: Option<nat>
    var running: bool
    var again: bool
    var closed: bool
    var live: set<nat>
    var next: nat
    var calls: seq<set<string>>
    var ended: nat
    ghost var edits: nat

    ghost function Contents(): State
      reads this
    {
      State(pending, live, timer, next, running, again, closed, calls, ended, edits)
    }

    constructor (relevant: string -> bool)
      ensures this.relevant == relevant && Contents() == START
    {
      this.relevant := relevant;
      pending, timer, running, again, closed := {}, None, false, false, false;
      live, next, calls, ended, edits := {}, 0, [], 0, 0;
    }

    /** A call begins unless the watcher is closed or one is running, and takes all that is pending; otherwise nothing pending is lost. */
    method FlushPending()
      modifies this
      ensures Contents() == Flush(old(Contents()))
      ensures |calls| > |old(calls)| <==> !old(closed) && !old(running)
      ensures if |calls| > |old(calls)| then calls == old(calls) + [old(pending)] && pending == {} else calls == old(calls) && pending == old(pending)
      ensures !old(closed) && old(running) ==> again
    {
      timer := None;
      if closed { return; }
      if running {
        again := true;
        return;
      }
      var changed := pending;
      pending := {};
      calls := calls + [changed];
      running := true;
    }

    /** No name, or a file that does not matter, changes nothing. */
    method Changed(filename: Option<string>)
      modifies this
      ensures Contents() == if filename.Some? && relevant(filename.value) then Step(old(Contents()), Change(filename.value)) else old(Contents())
      ensures calls == old(calls) && running == old(running) && again == old(again) && closed == old(closed)
      ensures filename.Some? && relevant(filename.value) ==>
        && pending == old(pending) + {filename.value} && timer == Some(old(next)) && next == old(next) + 1
        && live == (if old(timer).Some? then old(live) - {old(timer).value} else old(live)) + {old(next)}
    {
      if filename.None? || !relevant(filename.value) { return; }
      pending := pending + {filename.value};
      if timer.Some? { live := live - {timer.value}; }
      live := live + {next};
      timer := Some(next);
      next := next + 1;
      edits := edits + 1;
    }

    method TimerFires(id: nat)
      requires id in live
      modifies this
      ensures Contents() == Step(old(Contents()), Fire(id))
      ensures live == old(live) - {id} && timer == None && closed == old(closed)
      ensures old(closed) || old(running) ==> calls == old(calls) && pending == old(pending) && running == old(running)
      ensures !old(closed) && old(running) ==> again
      ensures !old(closed) && !old(running) ==> calls == old(calls) + [old(pending)] && pending == {} && running
    {
      live := live - {id};
      FlushPending();
    }

    method CallEnds()
      requires ended < |calls|
      modifies this
      ensures Contents() == Step(old(Contents()), End)
      ensures ended == old(ended) + 1 && live == old(live) && closed == old(closed) && !again
      ensures old(again) && !old(closed) ==> calls == old(calls) + [old(pending)] && pending == {} && running
      ensures !(old(again) && !old(closed)) ==> calls == old(calls) && pending == old(pending) && !running
    {
      ended := ended + 1;
      running := false;
      if again {
        again := false;
        FlushPending();
      }
    }

    method CloseWatcher()
      modifies this
      ensures Contents() == Step(old(Contents()), Close)
      ensures closed && calls == old(calls) && pending == old(pending) && running == old(running)
      ensures live == if old(timer).Some? then old(live) - {old(timer).value} else old(live)
    {
      closed := true;
      if timer.Some? { live := live - {timer.value}; }
    }
  }
}
