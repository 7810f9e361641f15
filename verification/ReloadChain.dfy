/** `reload` of packages/server/src/context.ts. */
module ReloadChain {
  // Each reload waits for the one asked for before it. Reading the vault takes
  // time, so a reload sees all that was on disk when it began and perhaps some of
  // what was saved since; meanwhile writes are folded into the served notes as
  // they happen. The notes are known here by the edits they hold.

  import opened Text

  type Edit(==, !new)

  /** A reload waits for another one's promise, or for none; reads, knowing what was on disk when it began; or has ended. */
  datatype Phase = Waiting(on: Option<nat>) | Reading(sure: set<Edit>) | Ended(well: bool)

  datatype State = State(
    disk: set<Edit>,
    served: set<Edit>,
    reloads: seq<Phase>,
    asked: seq<set<Edit>>,    // what was on disk when each reload was asked for
    reloading: Option<nat>)   // the promise the next reload will wait for

  /** Serving starts with what is on disk. */
  function Start(disk: set<Edit>): State {
    State(disk, disk, [], [], None)
  }

  datatype Event =
    | Save(edit: Edit)        // an edit reaches the disk
    | Apply(written: Edit)    // a write, already on disk, is folded into the served notes
    | Request
    | Begin(begun: nat)
    | Land(landed: nat, read: set<Edit>)
    | Fail(failed: nat)

  predicate Possible(s: State, e: Event) {
    match e
    case Save(_) => true
    case Apply(w) => w in s.disk
    case Request => true
    case Begin(i) =>
      i < |s.reloads| && s.reloads[i].Waiting?
      && (s.reloads[i].on.Some? ==> s.reloads[i].on.value < |s.reloads| && s.reloads[s.reloads[i].on.value].Ended?)
    case Land(i, read) => i < |s.reloads| && s.reloads[i].Reading? && s.reloads[i].sure <= read <= s.disk
    case Fail(i) => i < |s.reloads| && s.reloads[i].Reading?
  }

  /**
    The promise kept for the next request is compared, once its reload has ended, with
    the promise it was made from; the two are never the same, so it stays.
   */
  function Step(s: State, e: Event): State
    requires Possible(s, e)
  {
    match e
    case Save(edit) => s.(disk := s.disk + {edit})
    case Apply(w) => s.(served := s.served + {w})
    case Request => s.(reloads := s.reloads + [Waiting(s.reloading)], asked := s.asked + [s.disk], reloading := Some(|s.reloads|))
    case Begin(i) => s.(reloads := s.reloads[i := Reading(s.disk)])
    case Land(i, read) => s.(reloads := s.reloads[i := Ended(true)], served := read)
    case Fail(i) => s.(reloads := s.reloads[i := Ended(false)])
  }

  /** Each reload waits for its predecessor, so none gets under way before all earlier ones have ended. */
  ghost predicate InLine(s: State) {
    && s.reloading == (if |s.reloads| == 0 then None else Some(|s.reloads| - 1))
    && (forall i :: 0 <= i < |s.reloads| && s.reloads[i].Waiting? ==> s.reloads[i].on == if i == 0 then None else Some(i - 1))
    && (forall i, j :: 0 <= i < j < |s.reloads| && !s.reloads[j].Waiting? ==> s.reloads[i].Ended?)
  }

  /** What a reload was asked to pick up: it knows it while reading, and has served it once it ended well. */
  ghost predicate PickedUp(s: State) {
    && |s.asked| == |s.reloads|
    && (forall i, j :: 0 <= i <= j < |s.asked| ==> s.asked[i] <= s.asked[j])
    && (forall i :: 0 <= i < |s.asked| ==> s.asked[i] <= s.disk)
    && (forall i :: 0 <= i < |s.reloads| && s.reloads[i].Reading? ==> s.asked[i] <= s.reloads[i].sure <= s.disk)
    && (forall i :: 0 <= i < |s.reloads| && s.reloads[i] == Ended(true) ==> s.asked[i] <= s.served)
    && s.served <= s.disk
  }

  ghost predicate Sound(s: State) {
    InLine(s) && PickedUp(s)
  }

  lemma StepKeepsLine(s: State, e: Event)
    requires InLine(s) && Possible(s, e)
    ensures InLine(Step(s, e))
  {}

  lemma StepKeepsPickedUp(s: State, e: Event)
    requires Sound(s) && Possible(s, e)
    ensures PickedUp(Step(s, e))
  {
    match e {
      case Land(k, read) =>
        forall i | 0 <= i < |s.reloads| && Step(s, e).reloads[i] == Ended(true) ensures s.asked[i] <= s.asked[k] {}
      case _ =>
    }
  }

  lemma StepKeepsSound(s: State, e: Event)
    requires Sound(s) && Possible(s, e)
    ensures Sound(Step(s, e))
  {
    hide InLine, PickedUp;
    StepKeepsLine(s, e);
    StepKeepsPickedUp(s, e);
  }

  ghost predicate Run(s: State, events: seq<Event>)
    decreases |events|
  {
    events == [] || (Possible(s, events[0]) && Run(Step(s, events[0]), events[1..]))
  }

  ghost function After(s: State, events: seq<Event>): State
    requires Run(s, events)
    decreases |events|
  {
    if events == [] then s else After(Step(s, events[0]), events[1..])
  }

  lemma {:induction false} RunKeepsSound(s: State, events: seq<Event>)
    requires Sound(s) && Run(s, events)
    ensures Sound(After(s, events))
    decreases |events|
  {
    hide Sound, Step, Possible;
    if events != [] {
      StepKeepsSound(s, events[0]);
      RunKeepsSound(Step(s, events[0]), events[1..]);
    }
  }

  /** In no run do two reloads read at once. */
  lemma OneReloadAtATime(disk: set<Edit>, events: seq<Event>, i: nat, j: nat)
    requires Run(Start(disk), events)
    requires var s := After(Start(disk), events);
      i < |s.reloads| && j < |s.reloads| && s.reloads[i].Reading? && s.reloads[j].Reading?
    ensures i == j
  {
    hide Step, Possible;
    assert Sound(Start(disk));
    RunKeepsSound(Start(disk), events);
  }

  /** Whatever was on disk when a reload was asked for is served once that reload has ended well, and stays served. */
  lemma LastEditWins(disk: set<Edit>, events: seq<Event>, i: nat)
    requires Run(Start(disk), events)
    requires i < |After(Start(disk), events).reloads| && After(Start(disk), events).reloads[i] == Ended(true)
    ensures i < |After(Start(disk), events).asked|
    ensures After(Start(disk), events).asked[i] <= After(Start(disk), events).served <= After(Start(disk), events).disk
  {
    hide Step, Possible;
    assert Sound(Start(disk));
    RunKeepsSound(Start(disk), events);
  }

  /** A reload is reading that began before the edit was on disk, and so may land without it. */
  ghost predicate MayMiss(s: State, w: Edit) {
    exists i :: 0 <= i < |s.reloads| && s.reloads[i].Reading? && w !in s.reloads[i].sure
  }

  lemma StepKeepsServed(s: State, e: Event, w: Edit)
    requires Sound(s) && Possible(s, e) && w in s.served && !MayMiss(s, w)
    ensures w in Step(s, e).served && !MayMiss(Step(s, e), w)
  {
    hide InLine;
    assert w in s.disk;
    var t := Step(s, e);
    forall i | 0 <= i < |t.reloads| && t.reloads[i].Reading? ensures w in t.reloads[i].sure {
      if i < |s.reloads| && s.reloads[i].Reading? { assert w in s.reloads[i].sure; }
    }
  }

  lemma {:induction false} RunKeepsServed(s: State, events: seq<Event>, w: Edit)
    requires Sound(s) && Run(s, events) && w in s.served && !MayMiss(s, w)
    ensures w in After(s, events).served
    decreases |events|
  {
    hide Sound, Step, Possible, MayMiss;
    if events != [] {
      StepKeepsServed(s, events[0], w);
      StepKeepsSound(s, events[0]);
      RunKeepsServed(Step(s, events[0]), events[1..], w);
    }
  }

  /** Some run from here ends with the edit no longer served. */
  ghost predicate CanVanish(s: State, w: Edit) {
    exists events :: Run(s, events) && w !in After(s, events).served
  }

  lemma OldReadCanDrop(s: State, w: Edit)
    requires Sound(s) && MayMiss(s, w)
    ensures CanVanish(s, w)
  {
    hide InLine;
    var i :| 0 <= i < |s.reloads| && s.reloads[i].Reading? && w !in s.reloads[i].sure;
    var land := Land(i, s.reloads[i].sure);
    RunMore(s, land, []);
    assert [land] + [] == [land];
    assert Run(s, [land]) && w !in After(s, [land]).served;
  }

  /**
    An edit that is served now can vanish in some run exactly when a reload is
    reading that began before the edit was on disk; otherwise it is served in
    every state of every run from here.
   */
  lemma OnlyAnOldReadDrops(s: State, w: Edit)
    requires Sound(s) && w in s.served
    ensures CanVanish(s, w) <==> MayMiss(s, w)
  {
    hide Sound, Run, After, MayMiss;
    if MayMiss(s, w) { OldReadCanDrop(s, w); }
    if CanVanish(s, w) && !MayMiss(s, w) {
      var events :| Run(s, events) && w !in After(s, events).served;
      RunKeepsServed(s, events, w);
    }
  }

  /** A write folded in while a reload is reading can vanish when the reload lands, although it is on disk, until the next reload. */
  lemma AnAppliedWriteCanVanish(w: Edit)
    ensures var events := [Request, Begin(0), Save(w), Apply(w), Land(0, {})];
            Run(Start({}), events)
            && w in After(Start({}), events).disk && w !in After(Start({}), events).served
  {
    var s1 := Step(Start({}), Request);
    assert s1.reloads == [Waiting(None)];
    var s2 := Step(s1, Begin(0));
    var s3 := Step(s2, Save(w));
    var s4 := Step(s3, Apply(w));
    assert s4.reloads == [Reading({})];
    RunMore(s4, Land(0, {}), []);
    RunMore(s3, Apply(w), [Land(0, {})]);
    RunMore(s2, Save(w), [Apply(w), Land(0, {})]);
    RunMore(s1, Begin(0), [Save(w), Apply(w), Land(0, {})]);
    RunMore(Start({}), Request, [Begin(0), Save(w), Apply(w), Land(0, {})]);
  }

  lemma RunMore(s: State, e: Event, rest: seq<Event>)
    requires Possible(s, e) && Run(Step(s, e), rest)
    ensures Run(s, [e] + rest) && After(s, [e] + rest) == After(Step(s, e), rest)
  {
    assert ([e] + rest)[1..] == rest;
  }
}
