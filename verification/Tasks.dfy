/** `TaskStore` of packages/server/src/tasks.ts. */
module Tasks {
  // Records are kept by their id even after a sweep has dropped them from the
  // store, because the work's callbacks still hold them; `held` says which the
  // store itself still finds.

  import opened Text

  datatype Status = Working | InputRequired | Completed | Failed | Cancelled

  predicate Terminal(s: Status) {
    s == Completed || s == Failed || s == Cancelled
  }

  datatype Outcome = Outcome(content: string, isError: bool)
  datatype TaskError = TaskError(code: int, message: string)

  datatype Record = Record(
    status: Status, statusMessage: Option<string>, createdAt: int, lastUpdatedAt: int,
    result: Option<Outcome>, error: Option<TaskError>,
    owner: string, cancelled: bool, expiresAt: Option<int>)

  /** What a client is shown: everything but owner, flag and expiry. */
  datatype TaskView = TaskView(
    taskId: string, status: Status, statusMessage: Option<string>, createdAt: int, lastUpdatedAt: int,
    ttlMs: Option<nat>, pollIntervalMs: nat, result: Option<Outcome>, error: Option<TaskError>)

  datatype State = State(records: map<string, Record>, held: set<string>, outstanding: set<string>)

  const START := State(map[], {}, {})
  const INTERNAL_ERROR := -32603

  datatype Event =
    | Create(id: string, owner: string, message: Option<string>, at: int)
    | Resolve(done: string, content: string, isError: bool, time: int)
    | Reject(failed: string, reason: string, when: int)
    | Get(caller: string, asked: string, now: int)
    | Cancel(canceller: string, target: string, moment: int)
    | Update(updater: string, answered: string, instant: int)
    | Size(clock: int)

  /** A new id is a fresh one, and a promise settles once. */
  predicate Possible(s: State, e: Event) {
    match e
    case Create(id, _, _, _) => id !in s.records
    case Resolve(id, _, _, _) => id in s.outstanding
    case Reject(id, _, _) => id in s.outstanding
    case _ => true
  }

  predicate Expired(r: Record, now: int) {
    r.expiresAt.Some? && r.expiresAt.value <= now
  }

  function Swept(s: State, now: int): set<string> {
    set id | id in s.held && !(id in s.records && Expired(s.records[id], now))
  }

  predicate Owns(s: State, owner: string, id: string) {
    id in s.held && id in s.records && s.records[id].owner == owner
  }

  function Finished(r: Record, status: Status, message: Option<string>, result: Option<Outcome>, error: Option<TaskError>, now: int): Record {
    r.(status := status, statusMessage := message, result := result, error := error, lastUpdatedAt := now)
  }

  function Settled(s: State, id: string, status: Status, result: Option<Outcome>, error: Option<TaskError>, now: int): State {
    var s := s.(outstanding := s.outstanding - {id});
    if id !in s.records || Terminal(s.records[id].status) then s
    else s.(records := s.records[id := Finished(s.records[id], status, s.records[id].statusMessage, result, error, now)])
  }

  function CancelledRecord(r: Record, now: int): Record {
    var r := r.(cancelled := true);
    if Terminal(r.status) then r else Finished(r, Cancelled, Some("cancelled by the caller"), r.result, r.error, now)
  }

  function Expiry(ttlMs: Option<nat>, now: int): Option<int> {
    if ttlMs.None? then None else Some(now + ttlMs.value)
  }

  function Step(ttlMs: Option<nat>, s: State, e: Event): State {
    match e
    case Create(id, owner, message, now) =>
      State(s.records[id := Record(Working, message, now, now, None, None, owner, false, Expiry(ttlMs, now))], s.held + {id}, s.outstanding + {id})
    case Resolve(id, content, isError, now) => Settled(s, id, Completed, Some(Outcome(content, isError)), None, now)
    case Reject(id, reason, now) => Settled(s, id, Failed, None, Some(TaskError(INTERNAL_ERROR, reason)), now)
    case Get(_, _, now) => s.(held := Swept(s, now))
    case Size(now) => s.(held := Swept(s, now))
    case Cancel(owner, id, now) =>
      if Owns(s, owner, id) then s.(records := s.records[id := CancelledRecord(s.records[id], now)]) else s
    case Update(owner, id, now) =>
      if Owns(s, owner, id) && s.records[id].status == InputRequired
      then s.(records := s.records[id := s.records[id].(status := Working, lastUpdatedAt := now)])
      else s
  }

  function View(id: string, r: Record, ttlMs: Option<nat>, pollIntervalMs: nat): TaskView {
    TaskView(id, r.status, r.statusMessage, r.createdAt, r.lastUpdatedAt, ttlMs, pollIntervalMs, r.result, r.error)
  }

  // ---- what every event keeps

  /** A record's status and what it carries go together, and nothing ever waits for input. */
  predicate Coherent(r: Record) {
    && r.status != InputRequired
    && (r.result.Some? <==> r.status == Completed)
    && (r.error.Some? <==> r.status == Failed)
    && (r.status == Cancelled ==> r.cancelled)
    && (r.cancelled ==> Terminal(r.status))
  }

  ghost predicate Sound(ttlMs: Option<nat>, s: State) {
    && s.held <= s.records.Keys
    && s.outstanding <= s.records.Keys
    && (forall id :: id in s.records ==> (s.records[id].expiresAt.None? <==> ttlMs.None?))
    && (forall id :: id in s.records ==> Coherent(s.records[id]))
      // a task at work has work under way
    && (forall id :: id in s.records && !Terminal(s.records[id].status) ==> id in s.outstanding)
  }

  lemma StepKeepsSound(ttlMs: Option<nat>, s: State, e: Event)
    requires Sound(ttlMs, s) && Possible(s, e)
    ensures Sound(ttlMs, Step(ttlMs, s, e))
  {
    if e.Cancel? && Owns(s, e.canceller, e.target) { assert Coherent(CancelledRecord(s.records[e.target], e.moment)); }
  }

  ghost predicate Run(ttlMs: Option<nat>, s: State, events: seq<Event>)
    decreases |events|
  {
    events == [] || (Possible(s, events[0]) && Run(ttlMs, Step(ttlMs, s, events[0]), events[1..]))
  }

  function After(ttlMs: Option<nat>, s: State, events: seq<Event>): State
    decreases |events|
  {
    if events == [] then s else After(ttlMs, Step(ttlMs, s, events[0]), events[1..])
  }

  lemma {:induction false} RunKeepsSound(ttlMs: Option<nat>, s: State, events: seq<Event>)
    requires Sound(ttlMs, s) && Run(ttlMs, s, events)
    ensures Sound(ttlMs, After(ttlMs, s, events))
    decreases |events|
  {
    hide Sound, Step, Possible;
    if events != [] {
      StepKeepsSound(ttlMs, s, events[0]);
      RunKeepsSound(ttlMs, Step(ttlMs, s, events[0]), events[1..]);
    }
  }

  lemma UpdateDoesNothing(ttlMs: Option<nat>, s: State, owner: string, id: string, now: int)
    requires Sound(ttlMs, s)
    ensures Step(ttlMs, s, Update(owner, id, now)) == s
  {}

  /** In every run no task ever waits for input, so no update changes anything, and every task still working has its work under way. */
  lemma NothingWaitsForInput(ttlMs: Option<nat>, events: seq<Event>, id: string, owner: string, now: int)
    requires Run(ttlMs, START, events) && id in After(ttlMs, START, events).records
    ensures Step(ttlMs, After(ttlMs, START, events), Update(owner, id, now)) == After(ttlMs, START, events)
    ensures After(ttlMs, START, events).records[id].status != InputRequired
    ensures !Terminal(After(ttlMs, START, events).records[id].status) ==> id in After(ttlMs, START, events).outstanding
  {
    hide Step, Possible;
    assert Sound(ttlMs, START);
    RunKeepsSound(ttlMs, START, events);
    UpdateDoesNothing(ttlMs, After(ttlMs, START, events), owner, id, now);
  }

  lemma TerminalStep(ttlMs: Option<nat>, pollIntervalMs: nat, s: State, e: Event, id: string)
    requires Possible(s, e) && id in s.records && Terminal(s.records[id].status)
    ensures id in Step(ttlMs, s, e).records && Terminal(Step(ttlMs, s, e).records[id].status)
    ensures View(id, Step(ttlMs, s, e).records[id], ttlMs, pollIntervalMs) == View(id, s.records[id], ttlMs, pollIntervalMs)
  {}

  /** A task that has ended is shown unchanged for ever: a later resolve, reject, cancel or update leaves its view as it is. */
  lemma {:induction false} EndedStaysAsItIs(ttlMs: Option<nat>, pollIntervalMs: nat, s: State, events: seq<Event>, id: string)
    requires Run(ttlMs, s, events) && id in s.records && Terminal(s.records[id].status)
    ensures id in After(ttlMs, s, events).records && Terminal(After(ttlMs, s, events).records[id].status)
    ensures View(id, After(ttlMs, s, events).records[id], ttlMs, pollIntervalMs) == View(id, s.records[id], ttlMs, pollIntervalMs)
    decreases |events|
  {
    hide Step, Possible, View, Terminal;
    if events != [] {
      TerminalStep(ttlMs, pollIntervalMs, s, events[0], id);
      EndedStaysAsItIs(ttlMs, pollIntervalMs, Step(ttlMs, s, events[0]), events[1..], id);
    }
  }

  predicate Ends(ttlMs: Option<nat>, s: State, e: Event, id: string) {
    var t := Step(ttlMs, s, e);
    id in t.records && Terminal(t.records[id].status) && !(id in s.records && Terminal(s.records[id].status))
  }

  /** How often a task goes from not ended to ended. */
  function Endings(ttlMs: Option<nat>, s: State, events: seq<Event>, id: string): nat
    decreases |events|
  {
    if events == [] then 0
    else (if Ends(ttlMs, s, events[0], id) then 1 else 0) + Endings(ttlMs, Step(ttlMs, s, events[0]), events[1..], id)
  }

  lemma {:induction false} EndsAtMostOnce(ttlMs: Option<nat>, s: State, events: seq<Event>, id: string)
    requires Run(ttlMs, s, events)
    ensures Endings(ttlMs, s, events, id) <= (if id in s.records && Terminal(s.records[id].status) then 0 else 1)
    decreases |events|
  {
    hide Step, Possible, Terminal;
    if events != [] {
      if id in s.records && Terminal(s.records[id].status) { TerminalStep(ttlMs, 0, s, events[0], id); }
      EndsAtMostOnce(ttlMs, Step(ttlMs, s, events[0]), events[1..], id);
    }
  }

  // ---- one identity's tasks

  /** What one identity would be shown at a time. */
  ghost function Visible(s: State, owner: string, now: int): map<string, Record> {
    map id | id in s.held && id in s.records && s.records[id].owner == owner && !Expired(s.records[id], now) :: s.records[id]
  }

  /** The event is this identity's, or is about one of its tasks. */
  predicate Concerns(s: State, e: Event, owner: string) {
    match e
    case Create(_, o, _, _) => o == owner
    case Resolve(id, _, _, _) => id in s.records && s.records[id].owner == owner
    case Reject(id, _, _) => id in s.records && s.records[id].owner == owner
    case Get(o, _, _) => o == owner
    case Cancel(o, _, _) => o == owner
    case Update(o, _, _) => o == owner
    case Size(_) => false
  }

  function TimeOf(e: Event): int {
    match e
    case Create(_, _, _, t) => t
    case Resolve(_, _, _, t) => t
    case Reject(_, _, t) => t
    case Get(_, _, t) => t
    case Cancel(_, _, t) => t
    case Update(_, _, t) => t
    case Size(t) => t
  }

  lemma SweepIsUnseen(s: State, owner: string, then_: int, now: int)
    requires then_ <= now
    ensures Visible(s.(held := Swept(s, then_)), owner, now) == Visible(s, owner, now)
  {}

  /** What other identities do, and how their tasks end, is not to be seen. */
  lemma OthersAreUnseen(ttlMs: Option<nat>, s: State, e: Event, owner: string, now: int)
    requires Possible(s, e) && !Concerns(s, e, owner) && TimeOf(e) <= now
    ensures Visible(Step(ttlMs, s, e), owner, now) == Visible(s, owner, now)
  {
    match e {
      case Get(_, _, at) => SweepIsUnseen(s, owner, at, now);
      case Size(at) => SweepIsUnseen(s, owner, at, now);
      case _ =>
    }
  }

  ghost predicate NoneConcerns(ttlMs: Option<nat>, s: State, events: seq<Event>, owner: string, now: int)
    decreases |events|
  {
    events == [] || (!Concerns(s, events[0], owner) && TimeOf(events[0]) <= now && NoneConcerns(ttlMs, Step(ttlMs, s, events[0]), events[1..], owner, now))
  }

  function Shown(s: State, owner: string, id: string, now: int, ttlMs: Option<nat>, pollIntervalMs: nat): Option<TaskView> {
    if id in Swept(s, now) && id in s.records && s.records[id].owner == owner then Some(View(id, s.records[id], ttlMs, pollIntervalMs)) else None
  }

  lemma ShownIsVisible(s: State, owner: string, id: string, now: int, ttlMs: Option<nat>, pollIntervalMs: nat)
    ensures Shown(s, owner, id, now, ttlMs, pollIntervalMs)
         == if id in Visible(s, owner, now) then Some(View(id, Visible(s, owner, now)[id], ttlMs, pollIntervalMs)) else None
  {}

  /** Whatever others do in between, `get` answers as if they had done nothing. */
  lemma {:induction false} GetSeesOwnTasksOnly(
    ttlMs: Option<nat>, pollIntervalMs: nat, s: State, events: seq<Event>, owner: string, id: string, now: int)
    requires Run(ttlMs, s, events) && NoneConcerns(ttlMs, s, events, owner, now)
    ensures Visible(After(ttlMs, s, events), owner, now) == Visible(s, owner, now)
    ensures Shown(After(ttlMs, s, events), owner, id, now, ttlMs, pollIntervalMs) == Shown(s, owner, id, now, ttlMs, pollIntervalMs)
    decreases |events|
  {
    hide Step, Possible, Visible, Shown, Concerns, View;
    if events != [] {
      OthersAreUnseen(ttlMs, s, events[0], owner, now);
      GetSeesOwnTasksOnly(ttlMs, pollIntervalMs, Step(ttlMs, s, events[0]), events[1..], owner, id, now);
    }
    ShownIsVisible(s, owner, id, now, ttlMs, pollIntervalMs);
    ShownIsVisible(After(ttlMs, s, events), owner, id, now, ttlMs, pollIntervalMs);
  }

  // ---- sweeps

  /** A sweep comes at a time by which the record has expired. */
  predicate SweptLate(events: seq<Event>, r: Record) {
    exists i :: 0 <= i < |events| && (events[i].Get? || events[i].Size?) && Expired(r, TimeOf(events[i]))
  }

  lemma StepKeepsExpiry(ttlMs: Option<nat>, s: State, e: Event, id: string)
    requires Possible(s, e) && id in s.records
    ensures id in Step(ttlMs, s, e).records
    ensures Step(ttlMs, s, e).records[id].expiresAt == s.records[id].expiresAt && Step(ttlMs, s, e).records[id].owner == s.records[id].owner
    ensures id in Step(ttlMs, s, e).held <==> id in s.held && !((e.Get? || e.Size?) && Expired(s.records[id], TimeOf(e)))
  {}

  lemma SweptFirst(e: Event, rest: seq<Event>, r: Record, later: Record)
    requires later.expiresAt == r.expiresAt
    ensures SweptLate([e] + rest, r) <==> ((e.Get? || e.Size?) && Expired(r, TimeOf(e))) || SweptLate(rest, later)
  {
    var events := [e] + rest;
    if SweptLate(rest, later) {
      var i :| 0 <= i < |rest| && (rest[i].Get? || rest[i].Size?) && Expired(later, TimeOf(rest[i]));
      assert events[i + 1] == rest[i];
    }
    if (e.Get? || e.Size?) && Expired(r, TimeOf(e)) { assert events[0] == e; }
  }

  /** Whoever does what, a record stays in the store exactly until the first sweep that finds it expired. */
  lemma {:induction false} HeldUntilSwept(ttlMs: Option<nat>, s: State, events: seq<Event>, id: string)
    requires Run(ttlMs, s, events) && id in s.records
    ensures id in After(ttlMs, s, events).records && After(ttlMs, s, events).records[id].owner == s.records[id].owner
    ensures id in After(ttlMs, s, events).held <==> id in s.held && !SweptLate(events, s.records[id])
    decreases |events|
  {
    hide Step, Possible, SweptLate, Expired;
    if events != [] {
      var t := Step(ttlMs, s, events[0]);
      StepKeepsExpiry(ttlMs, s, events[0], id);
      HeldUntilSwept(ttlMs, t, events[1..], id);
      SweptFirst(events[0], events[1..], s.records[id], t.records[id]);
      assert [events[0]] + events[1..] == events;
    } else {
      NoneSwept(s.records[id]);
    }
  }

  lemma NoneSwept(r: Record)
    ensures !SweptLate([], r)
  {}

  /**
    Cancelling does not sweep first, so others' sweeps show: over any run an owner
    can still cancel its task exactly if it could before and no `get` or `size`,
    anybody's, has come at a time by which the task had expired.
   */
  lemma SweepShowsInCancel(ttlMs: Option<nat>, s: State, events: seq<Event>, owner: string, id: string)
    requires Run(ttlMs, s, events) && id in s.records
    ensures Owns(After(ttlMs, s, events), owner, id) <==> Owns(s, owner, id) && !SweptLate(events, s.records[id])
  {
    hide Step, Possible, SweptLate;
    HeldUntilSwept(ttlMs, s, events, id);
  }

  /** Such a run: b's `get` takes away the task that a could have cancelled. */
  lemma AnothersGetTakesTheTask()
    ensures var s := Step(Some(1), START, Create("t", "a", None, 0));
      Owns(s, "a", "t") && !Owns(Step(Some(1), s, Get("b", "x", 1)), "a", "t")
  {}

  lemma RunMore(ttlMs: Option<nat>, s: State, e: Event, rest: seq<Event>)
    requires Run(ttlMs, s, [e] + rest)
    ensures Possible(s, e) && Run(ttlMs, Step(ttlMs, s, e), rest)
    ensures After(ttlMs, s, [e] + rest) == After(ttlMs, Step(ttlMs, s, e), rest)
  {
    assert ([e] + rest)[1..] == rest;
  }

  /**
    The time to live counts from creation, not from the answer: a task is in the
    store exactly until the first sweep that comes that long after it was
    created, whether its work has ended by then or not.
   */
  lemma TimeToLiveCountsFromCreation(ttlMs: Option<nat>, s: State, id: string, owner: string, message: Option<string>, at: int, events: seq<Event>)
    requires Run(ttlMs, s, [Create(id, owner, message, at)] + events)
    ensures var end := After(ttlMs, s, [Create(id, owner, message, at)] + events);
      id in end.held <==> !(ttlMs.Some? && exists i :: 0 <= i < |events| && (events[i].Get? || events[i].Size?) && TimeOf(events[i]) >= at + ttlMs.value)
  {
    hide Possible, Run, After;
    RunMore(ttlMs, s, Create(id, owner, message, at), events);
    HeldUntilSwept(ttlMs, Step(ttlMs, s, Create(id, owner, message, at)), events, id);
  }

  /** A task dropped while its work goes on: the answer comes, and nobody is ever shown it. */
  lemma AnAnswerNobodySees(content: string, caller: string, now: int, pollIntervalMs: nat)
    ensures var s := Step(Some(1), Step(Some(1), START, Create("t", "a", None, 0)), Size(1));
      var end := Step(Some(1), s, Resolve("t", content, false, 2));
      && "t" in s.outstanding && "t" !in s.held
      && end.records["t"].result == Some(Outcome(content, false))
      && Shown(end, caller, "t", now, Some(1), pollIntervalMs) == None
  {}

  // ---- the store

  /** A view tells these fields of the record. */
  ghost predicate Tells(view: TaskView, id: string, r: Record) {
    && view.taskId == id && view.status == r.status && view.statusMessage == r.statusMessage
    && view.createdAt == r.createdAt && view.lastUpdatedAt == r.lastUpdatedAt && view.result == r.result && view.error == r.error
  }

  class TaskStore {
    const ttlMs: Option<nat>
    const pollIntervalMs: nat
    var records: map<string, Record>
    var held: set<string>
    var outstanding: set<string>

    ghost function Contents(): State
      reads this
    {
      State(records, held, outstanding)
    }

    constructor (ttlMs: Option<nat>, pollIntervalMs: nat)
      ensures this.ttlMs == ttlMs && this.pollIntervalMs == pollIntervalMs && Contents() == START
    {
      this.ttlMs, this.pollIntervalMs := ttlMs, pollIntervalMs;
      records, held, outstanding := map[], {}, {};
    }

    method CreateTask(id: string, owner: string, message: Option<string>, now: int) returns (view: TaskView)
      requires Sound(ttlMs, Contents()) && id !in records
      modifies this
      ensures Sound(ttlMs, Contents())
      ensures Contents() == Step(ttlMs, old(Contents()), Create(id, owner, message, now))
      ensures view == TaskView(id, Working, message, now, now, ttlMs, pollIntervalMs, None, None)
      ensures var expiresAt := if ttlMs.None? then None else Some(now + ttlMs.value);
        records == old(records)[id := Record(Working, message, now, now, None, None, owner, false, expiresAt)]
      ensures held == old(held) + {id} && outstanding == old(outstanding) + {id}
    {
      StepKeepsSound(ttlMs, Contents(), Create(id, owner, message, now));
      var expiresAt := if ttlMs.None? then None else Some(now + ttlMs.value);
      records := records[id := Record(Working, message, now, now, None, None, owner, false, expiresAt)];
      held := held + {id};
      outstanding := outstanding + {id};
      return View(id, records[id], ttlMs, pollIntervalMs);
    }

    method WorkResolves(id: string, content: string, isError: bool, now: int)
      requires Sound(ttlMs, Contents()) && id in outstanding
      modifies this
      ensures Sound(ttlMs, Contents())
      ensures Contents() == Step(ttlMs, old(Contents()), Resolve(id, content, isError, now))
      ensures id in old(records) && held == old(held) && outstanding == old(outstanding) - {id}
      ensures old(records)[id].status in {Completed, Failed, Cancelled} ==> records == old(records)
      ensures old(records)[id].status in {Working, InputRequired} ==> records == old(records)
        [id := old(records)[id].(status := Completed, result := Some(Outcome(content, isError)), lastUpdatedAt := now)]
    {
      StepKeepsSound(ttlMs, Contents(), Resolve(id, content, isError, now));
      outstanding := outstanding - {id};
      if Terminal(records[id].status) { return; }
      records := records[id := records[id].(status := Completed, result := Some(Outcome(content, isError)), lastUpdatedAt := now)];
    }

    method WorkRejects(id: string, reason: string, now: int)
      requires Sound(ttlMs, Contents()) && id in outstanding
      modifies this
      ensures Sound(ttlMs, Contents())
      ensures Contents() == Step(ttlMs, old(Contents()), Reject(id, reason, now))
      ensures id in old(records) && held == old(held) && outstanding == old(outstanding) - {id}
      ensures old(records)[id].status in {Completed, Failed, Cancelled} ==> records == old(records)
      ensures old(records)[id].status in {Working, InputRequired} ==> records == old(records)
        [id := old(records)[id].(status := Failed, error := Some(TaskError(-32603, reason)), lastUpdatedAt := now)]
    {
      StepKeepsSound(ttlMs, Contents(), Reject(id, reason, now));
      outstanding := outstanding - {id};
      if Terminal(records[id].status) { return; }
      records := records[id := records[id].(status := Failed, error := Some(TaskError(INTERNAL_ERROR, reason)), lastUpdatedAt := now)];
    }

    /** Drops the records whose time has come. */
    method Sweep(now: int)
      requires Sound(ttlMs, Contents())
      modifies this`held
      ensures Sound(ttlMs, Contents()) && held == Swept(old(Contents()), now)
      ensures held <= old(held) <= records.Keys
      ensures forall id :: id in old(held) ==> (id !in held <==> records[id].expiresAt.Some? && records[id].expiresAt.value <= now)
    {
      if ttlMs.None? {
        return;
      }
      var left := held;
      while left != {}
        invariant left <= old(held) && held <= old(held)
        invariant left <= held
        invariant forall id :: id in old(held) && id !in left ==> (id in held <==> !Expired(records[id], now))
        decreases |left|
      {
        var id :| id in left;
        left := left - {id};
        if Expired(records[id], now) { held := held - {id}; }
      }
    }

    method GetTask(owner: string, id: string, now: int) returns (view: Option<TaskView>)
      requires Sound(ttlMs, Contents())
      modifies this`held
      ensures Sound(ttlMs, Contents())
      ensures Contents() == Step(ttlMs, old(Contents()), Get(owner, id, now))
      ensures view == Shown(old(Contents()), owner, id, now, ttlMs, pollIntervalMs)
      ensures view.Some? <==> id in held && records[id].owner == owner
      ensures id in held <==>
        id in old(held) && id in records && (records[id].expiresAt.None? || records[id].expiresAt.value > now)
      ensures view.Some? ==> id in records && Tells(view.value, id, records[id]) && view.value.ttlMs == ttlMs && view.value.pollIntervalMs == pollIntervalMs
    {
      Sweep(now);
      if id !in held || records[id].owner != owner { return None; }
      return Some(View(id, records[id], ttlMs, pollIntervalMs));
    }

    /** An ended task stays ended; the caller sees which of the two happened. */
    method CancelTask(owner: string, id: string, now: int) returns (view: Option<TaskView>)
      requires Sound(ttlMs, Contents())
      modifies this`records
      ensures Sound(ttlMs, Contents())
      ensures Contents() == Step(ttlMs, old(Contents()), Cancel(owner, id, now))
      ensures view.Some? <==> Owns(old(Contents()), owner, id)
      ensures view.Some? ==> id in records && view.value == View(id, records[id], ttlMs, pollIntervalMs) && Terminal(view.value.status)
      ensures view.Some? ==> id in records && Tells(view.value, id, records[id])
      ensures view.Some? <==> id in held && id in old(records) && old(records)[id].owner == owner
      ensures view.None? ==> records == old(records)
      ensures view.Some? && old(records)[id].status in {Completed, Failed, Cancelled} ==>
        records == old(records)[id := old(records)[id].(cancelled := true)]
      ensures view.Some? && old(records)[id].status in {Working, InputRequired} ==> records == old(records)[id := old(records)[id].(
        cancelled := true, status := Cancelled, statusMessage := Some("cancelled by the caller"), lastUpdatedAt := now)]
    {
      StepKeepsSound(ttlMs, Contents(), Cancel(owner, id, now));
      if id !in held || records[id].owner != owner { return None; }
      records := records[id := records[id].(cancelled := true)];
      if !Terminal(records[id].status) {
        records := records[id := records[id].(status := Cancelled, statusMessage := Some("cancelled by the caller"), lastUpdatedAt := now)];
      }
      return Some(View(id, records[id], ttlMs, pollIntervalMs));
    }

    /** In a sound store it never succeeds and changes nothing: nothing waits for input. */
    method UpdateTask(owner: string, id: string, now: int) returns (ok: bool, found: bool)
      requires held <= records.Keys
      modifies this`records
      ensures found <==> Owns(old(Contents()), owner, id)
      ensures ok <==> found && old(records)[id].status == InputRequired
      ensures Contents() == Step(ttlMs, old(Contents()), Update(owner, id, now))
      ensures Sound(ttlMs, old(Contents())) ==> !ok && Contents() == old(Contents())
    {
      if id !in held || records[id].owner != owner { return false, false; }
      if records[id].status != InputRequired { return false, true; }
      records := records[id := records[id].(status := Working, lastUpdatedAt := now)];
      return true, true;
    }

    method HowMany(now: int) returns (n: nat)
      requires Sound(ttlMs, Contents())
      modifies this`held
      ensures Sound(ttlMs, Contents())
      ensures Contents() == Step(ttlMs, old(Contents()), Size(now))
      ensures n == |set id | id in old(held) && !Expired(records[id], now)|
    {
      Sweep(now);
      assert held == set id | id in old(held) && !Expired(records[id], now);
      return |held|;
    }
  }
}
