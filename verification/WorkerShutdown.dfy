/** The worker process: three components and any number of scheduled tasks, a
    buffered error channel that is never waited on, and a cancel-and-drain stop. */
module WorkerShutdown {
  import opened Wrappers
  import opened Sequences

  const COMPONENTS := 3
  const BUFFER := 3

  /** A component's goroutine. */
  datatype Component =
    | Running
    | Failed(error: string)     // returned an error, context not yet inspected
    | Reporting(error: string)  // at the non-blocking send
    | Finished

  datatype Cause = ParentCancelled | WorkerError(error: string) | TelemetryError(error: string)

  datatype Main =
    | Waiting
    | Selected(cause: Cause)
    | Draining(cause: Cause)
    | Returned(cause: Cause)
    | TimedOut(cause: Cause)

  /** sent is everything ever put on the channel, oldest first; taken of these were
      received, so sent[taken..] is what the buffer holds. */
  datatype State = State(
    components: seq<Component>,
    tasks: seq<bool>,             // true: finished
    sent: seq<(nat, string)>,
    taken: nat,
    dropped: nat,
    parentDone: bool,
    cancelled: bool,
    telemetry: Option<string>,
    drained: bool,
    main: Main)

  datatype Event =
    | CancelParent
    | FailTelemetry(error: string)
    | ComponentReturns(i: nat, result: Option<string>)
    | ComponentInspects(i: nat)
    | ComponentReports(i: nat)
    | TaskReturns(j: nat)
    | MainSelects(cause: Cause)
    | MainCancels
    | DrainCloses
    | MainSeesDrained
    | MainTimesOut

  function Initial(tasks: nat): State {
    State([Running, Running, Running], seq(tasks, j => false), [], 0, 0, false, false, None, false, Waiting)
  }

  function Buffered(s: State): seq<(nat, string)>
    requires s.taken <= |s.sent|
  {
    s.sent[s.taken..]
  }

  /** workerCtx.Err() != nil: it is cancelled itself or through its parent. */
  predicate ContextDone(s: State) {
    s.cancelled || s.parentDone
  }

  predicate AllFinished(s: State) {
    && (forall i | 0 <= i < |s.components| :: s.components[i].Finished?)
    && (forall j | 0 <= j < |s.tasks| :: s.tasks[j])
  }

  function ComponentStep(s: State, e: Event): Option<State>
    requires e.ComponentReturns? || e.ComponentInspects? || e.ComponentReports?
    requires s.taken <= |s.sent|
  {
    if e.i >= |s.components| then None
    else
      match (e, s.components[e.i])
      case (ComponentReturns(i, result), Running) =>
        Some(s.(components := s.components[i := if result.Some? then Failed(result.value) else Finished]))
      case (ComponentInspects(i), Failed(error)) =>
        Some(s.(components := s.components[i := if ContextDone(s) then Finished else Reporting(error)]))
      case (ComponentReports(i), Reporting(error)) =>
        // the send never waits: a full buffer drops the error
        if |Buffered(s)| < BUFFER
        then Some(s.(components := s.components[i := Finished], sent := s.sent + [(i, error)]))
        else Some(s.(components := s.components[i := Finished], dropped := s.dropped + 1))
      case _ => None
  }

  function MainStep(s: State, e: Event): Option<State>
    requires s.taken <= |s.sent|
  {
    match (e, s.main)
    case (MainSelects(ParentCancelled), Waiting) =>
      if s.parentDone then Some(s.(main := Selected(ParentCancelled))) else None
    case (MainSelects(WorkerError(error)), Waiting) =>
      if Buffered(s) != [] && Buffered(s)[0].1 == error
      then Some(s.(main := Selected(WorkerError(error)), taken := s.taken + 1)) else None
    case (MainSelects(TelemetryError(error)), Waiting) =>
      if s.telemetry == Some(error) then Some(s.(main := Selected(TelemetryError(error)))) else None
    case (MainCancels, Selected(cause)) => Some(s.(main := Draining(cause), cancelled := true))
    case (MainSeesDrained, Draining(cause)) => if s.drained then Some(s.(main := Returned(cause))) else None
    case (MainTimesOut, Draining(cause)) => Some(s.(main := TimedOut(cause)))
    case _ => None
  }

  predicate PastCancel(main: Main) {
    main.Draining? || main.Returned? || main.TimedOut?
  }

  function Step(s: State, e: Event): Option<State>
    requires s.taken <= |s.sent|
  {
    match e
    case CancelParent => Some(s.(parentDone := true))
    case FailTelemetry(error) => if s.telemetry.None? then Some(s.(telemetry := Some(error))) else None
    case TaskReturns(j) =>
      if j < |s.tasks| && !s.tasks[j] then Some(s.(tasks := s.tasks[j := true])) else None
    case DrainCloses =>
      // workers.Wait() has returned
      if PastCancel(s.main) && AllFinished(s) && !s.drained then Some(s.(drained := true)) else None
    case ComponentReturns(_, _) => ComponentStep(s, e)
    case ComponentInspects(_) => ComponentStep(s, e)
    case ComponentReports(_) => ComponentStep(s, e)
    case _ => MainStep(s, e)
  }

  // ---------------------------------------------------------------- invariant

  /** The components whose errors were put on the channel. */
  ghost predicate SentOnce(s: State) {
    && (forall k | 0 <= k < |s.sent| :: s.sent[k].0 < |s.components| && s.components[s.sent[k].0].Finished?)
    && (forall k, l | 0 <= k < l < |s.sent| :: s.sent[k].0 != s.sent[l].0)
  }

  ghost predicate CauseOk(s: State, cause: Cause) {
    match cause
    case ParentCancelled => s.parentDone && s.taken == 0
    case WorkerError(error) => s.taken == 1 && |s.sent| >= 1 && s.sent[0].1 == error
    case TelemetryError(error) => s.telemetry == Some(error) && s.taken == 0
  }

  ghost predicate Inv(s: State) {
    && |s.components| == COMPONENTS
    && s.taken <= |s.sent|
    && SentOnce(s)
    && s.dropped == 0
    && (s.drained ==> AllFinished(s) && PastCancel(s.main))
    && (s.cancelled <==> PastCancel(s.main))
    && (if s.main.Waiting? then s.taken == 0 else CauseOk(s, s.main.cause))
    && (s.main.Returned? ==> s.drained)
  }

  /** While a component has yet to report, the buffer has room for it. */
  lemma ReporterFindsRoom(s: State, i: nat)
    requires Inv(s) && i < COMPONENTS && s.components[i].Reporting?
    ensures |s.sent| < BUFFER
  {
    var senders := seq(|s.sent|, k requires 0 <= k < |s.sent| => s.sent[k].0);
    var others: set<nat> := {0, 1, 2} - {i};
    DistinctSize(senders);
    forall id | id in ToSet(senders) ensures id in others {
      var k :| 0 <= k < |senders| && senders[k] == id;
      assert s.components[s.sent[k].0].Finished?;
    }
    SubsetOfSameSize(ToSet(senders), others);
    assert {0, 1, 2} == others + {i};
  }

  lemma ComponentKeepsInv(s: State, e: Event)
    requires Inv(s) && (e.ComponentReturns? || e.ComponentInspects? || e.ComponentReports?)
    requires ComponentStep(s, e).Some?
    ensures Inv(ComponentStep(s, e).value)
  {
    if e.ComponentReports? {
      ReporterFindsRoom(s, e.i);
    }
  }

  lemma MainKeepsInv(s: State, e: Event)
    requires Inv(s) && MainStep(s, e).Some?
    ensures Inv(MainStep(s, e).value)
  {
    var t := MainStep(s, e).value;
    assert t.components == s.components && t.tasks == s.tasks && t.sent == s.sent;
    assert SentOnce(t);
  }

  lemma StepKeepsInv(s: State, e: Event)
    requires Inv(s) && Step(s, e).Some?
    ensures Inv(Step(s, e).value)
  {
    match e
    case ComponentReturns(_, _) => ComponentKeepsInv(s, e);
    case ComponentInspects(_) => ComponentKeepsInv(s, e);
    case ComponentReports(_) => ComponentKeepsInv(s, e);
    case MainSelects(_) => MainKeepsInv(s, e);
    case MainCancels => MainKeepsInv(s, e);
    case MainSeesDrained => MainKeepsInv(s, e);
    case MainTimesOut => MainKeepsInv(s, e);
    case _ =>
      var t := Step(s, e).value;
      assert t.components == s.components && t.sent == s.sent;
      assert SentOnce(t);
  }

  /** The states a run can be in; None once an event was not enabled. */
  function Run(s: State, events: seq<Event>): (r: Option<State>)
    requires s.taken <= |s.sent|
    ensures r.Some? ==> r.value.taken <= |r.value.sent| && |r.value.components| == |s.components|
    decreases |events|
  {
    if events == [] then Some(s)
    else
      match Step(s, events[0])
      case Some(t) => if t.taken <= |t.sent| then Run(t, events[1..]) else None
      case None => None
  }

  /** The invariant holds in every state of a run, and work is never added. */
  lemma {:induction false} RunsKeepInv(s: State, events: seq<Event>)
    requires Inv(s) && Run(s, events).Some?
    ensures Inv(Run(s, events).value) && WorkLeft(Run(s, events).value) <= WorkLeft(s)
    decreases |events|
  {
    if events != [] {
      StepKeepsInv(s, events[0]);
      WorkerStepsDecrease(s, events[0]);
      RunsKeepInv(Step(s, events[0]).value, events[1..]);
    }
  }

  // ------------------------------------------------------- what runs guarantee

  /** In every interleaving no component error is ever dropped. */
  lemma NoErrorIsDropped(tasks: nat, events: seq<Event>)
    requires Run(Initial(tasks), events).Some?
    ensures Run(Initial(tasks), events).value.dropped == 0
  {
    RunsKeepInv(Initial(tasks), events);
  }

  /** drained closes only after every component and task has finished. */
  lemma DrainedMeansFinished(tasks: nat, events: seq<Event>)
    requires Run(Initial(tasks), events).Some?
    ensures var s := Run(Initial(tasks), events).value;
            (s.drained || s.main.Returned?) ==> AllFinished(s)
  {
    RunsKeepInv(Initial(tasks), events);
  }

  /** The cause main stops for is real, and a worker error it returns is the first
      one queued. */
  lemma ReturnedErrorIsTheFirst(tasks: nat, events: seq<Event>)
    requires Run(Initial(tasks), events).Some?
    ensures var s := Run(Initial(tasks), events).value;
            !s.main.Waiting? ==>
              match s.main.cause
              case WorkerError(error) => s.sent != [] && s.sent[0].1 == error
              case ParentCancelled => s.parentDone
              case TelemetryError(error) => s.telemetry == Some(error)
  {
    RunsKeepInv(Initial(tasks), events);
  }

  // ------------------------------------------------------------------ progress

  function Left(c: Component): nat {
    match c
    case Running => 3
    case Failed(_) => 2
    case Reporting(_) => 1
    case Finished => 0
  }

  function ComponentsLeft(cs: seq<Component>): nat {
    if cs == [] then 0 else ComponentsLeft(cs[..|cs| - 1]) + Left(cs[|cs| - 1])
  }

  function TasksLeft(ts: seq<bool>): nat {
    if ts == [] then 0 else TasksLeft(ts[..|ts| - 1]) + (if ts[|ts| - 1] then 0 else 1)
  }

  /** The worker steps still to be taken. */
  function WorkLeft(s: State): nat {
    ComponentsLeft(s.components) + TasksLeft(s.tasks)
  }

  predicate IsWorkerEvent(e: Event) {
    e.ComponentReturns? || e.ComponentInspects? || e.ComponentReports? || e.TaskReturns?
  }

  lemma {:induction false} ComponentsLeftUpdate(cs: seq<Component>, i: nat, c: Component)
    requires i < |cs|
    ensures ComponentsLeft(cs[i := c]) == ComponentsLeft(cs) - Left(cs[i]) + Left(c)
  {
    var n := |cs| - 1;
    if i == n {
      assert cs[i := c][..n] == cs[..n];
    } else {
      ComponentsLeftUpdate(cs[..n], i, c);
      assert cs[i := c][..n] == cs[..n][i := c];
    }
  }

  lemma {:induction false} TasksLeftUpdate(ts: seq<bool>, j: nat)
    requires j < |ts| && !ts[j]
    ensures TasksLeft(ts[j := true]) == TasksLeft(ts) - 1
  {
    var n := |ts| - 1;
    if j == n {
      assert ts[j := true][..n] == ts[..n];
    } else {
      TasksLeftUpdate(ts[..n], j);
      assert ts[j := true][..n] == ts[..n][j := true];
    }
  }

  /** Every worker step leaves less to do, and no other step leaves more: a worker
      takes finitely many steps and never waits for the channel. */
  lemma WorkerStepsDecrease(s: State, e: Event)
    requires Inv(s) && Step(s, e).Some?
    ensures var t := Step(s, e).value;
            if IsWorkerEvent(e) then WorkLeft(t) < WorkLeft(s) else WorkLeft(t) == WorkLeft(s)
  {
    if e.TaskReturns? {
      TasksLeftUpdate(s.tasks, e.j);
    } else if IsWorkerEvent(e) {
      ComponentStepDecreases(s, e);
    }
  }

  lemma ComponentStepDecreases(s: State, e: Event)
    requires s.taken <= |s.sent| && (e.ComponentReturns? || e.ComponentInspects? || e.ComponentReports?)
    requires ComponentStep(s, e).Some?
    ensures var t := ComponentStep(s, e).value;
            t.tasks == s.tasks && ComponentsLeft(t.components) < ComponentsLeft(s.components)
  {
    var t := ComponentStep(s, e).value;
    assert t.components == s.components[e.i := t.components[e.i]];
    ComponentsLeftUpdate(s.components, e.i, t.components[e.i]);
  }

  /** The step an unfinished worker can take next, on its own, once components and
      tasks return on cancel. */
  function NextOf(c: Component, i: nat): Event {
    match c
    case Running => ComponentReturns(i, None)
    case Failed(_) => ComponentInspects(i)
    case _ => ComponentReports(i)
  }

  /** While main drains, either some worker can step or drained can be closed, and
      then main returns its cause: with fair scheduling the drain completes. */
  lemma DrainNeverStuck(s: State)
    requires Inv(s) && s.main.Draining?
    ensures (exists i | 0 <= i < |s.components| ::
               !s.components[i].Finished? && Step(s, NextOf(s.components[i], i)).Some?)
         || (exists j | 0 <= j < |s.tasks| :: Step(s, TaskReturns(j)).Some?)
         || (Step(s, DrainCloses).Some?
             && Step(Step(s, DrainCloses).value, MainSeesDrained) ==
                Some(s.(drained := true, main := Returned(s.main.cause))))
         || (s.drained && Step(s, MainSeesDrained) == Some(s.(main := Returned(s.main.cause))))
  {
    if i :| 0 <= i < |s.components| && !s.components[i].Finished? {
      assert Step(s, NextOf(s.components[i], i)).Some?;
    } else if j :| 0 <= j < |s.tasks| && !s.tasks[j] {
      assert Step(s, TaskReturns(j)).Some?;
    }
  }

  // --------------------------------------------------- every drain completes

  /** No worker can take a step, drained cannot be closed, and main cannot see it
      closed: only a time-out or the world outside could still move. */
  ghost predicate Settled(s: State)
    requires s.taken <= |s.sent|
  {
    forall e | IsWorkerEvent(e) || e.DrainCloses? || e.MainSeesDrained? :: Step(s, e).None?
  }

  predicate Stopping(main: Main, cause: Cause) {
    main == Draining(cause) || main == Returned(cause)
  }

  lemma StoppingStep(s: State, e: Event, cause: Cause)
    requires s.taken <= |s.sent| && Stopping(s.main, cause) && e != MainTimesOut && Step(s, e).Some?
    ensures Stopping(Step(s, e).value.main, cause)
  {
  }

  /** However the run goes on after main has cancelled, unless it times out, it
      cannot settle before every worker has finished and main has returned the
      cause it selected. */
  lemma {:induction false} EveryDrainCompletes(s: State, events: seq<Event>, cause: Cause)
    requires Inv(s) && Stopping(s.main, cause)
    requires Run(s, events).Some? && MainTimesOut !in events
    ensures var t := Run(s, events).value;
            && Inv(t) && Stopping(t.main, cause)
            && (Settled(t) ==> t.main == Returned(cause) && AllFinished(t))
    decreases |events|
  {
    if events == [] {
      if s.main.Draining? {
        DrainNeverStuck(s);
      }
    } else {
      assert events[0] != MainTimesOut;
      StepKeepsInv(s, events[0]);
      StoppingStep(s, events[0], cause);
      EveryDrainCompletes(Step(s, events[0]).value, events[1..], cause);
    }
  }

  function WorkerEvents(events: seq<Event>): nat
    decreases |events|
  {
    if events == [] then 0 else (if IsWorkerEvent(events[0]) then 1 else 0) + WorkerEvents(events[1..])
  }

  /** And it must settle: in any run the workers take no more steps than were left. */
  lemma {:induction false} WorkerEventsAreBounded(s: State, events: seq<Event>)
    requires Inv(s) && Run(s, events).Some?
    ensures WorkerEvents(events) + WorkLeft(Run(s, events).value) <= WorkLeft(s)
    decreases |events|
  {
    if events != [] {
      StepKeepsInv(s, events[0]);
      WorkerStepsDecrease(s, events[0]);
      WorkerEventsAreBounded(Step(s, events[0]).value, events[1..]);
    }
  }

  /** A run without time-out after which everything has settled and main returned. */
  ghost predicate Completes(s: State, events: seq<Event>, cause: Cause)
    requires s.taken <= |s.sent|
  {
    && MainTimesOut !in events && Run(s, events).Some?
    && var t := Run(s, events).value;
       t.taken <= |t.sent| && Settled(t) && t.main == Returned(cause)
  }

  /** Such a run exists from every draining state. */
  lemma {:induction false} DrainCompletes(s: State)
    requires Inv(s) && s.main.Draining?
    ensures exists events :: Completes(s, events, s.main.cause)
    decreases WorkLeft(s), if s.drained then 0 else 1
  {
    if i: nat :| i < |s.components| && !s.components[i].Finished? {
      DrainBy(s, NextOf(s.components[i], i));
    } else if j: nat :| j < |s.tasks| && !s.tasks[j] {
      DrainBy(s, TaskReturns(j));
    } else if !s.drained {
      DrainBy(s, DrainCloses);
    } else {
      var t := s.(main := Returned(s.main.cause));
      assert [MainSeesDrained][1..] == [];
      assert Run(s, [MainSeesDrained]) == Run(t, []);
      assert Settled(t);
      assert Completes(s, [MainSeesDrained], s.main.cause);
    }
  }

  lemma DrainBy(s: State, e: Event)
    requires Inv(s) && s.main.Draining? && Step(s, e).Some?
    requires IsWorkerEvent(e) || (e.DrainCloses? && !s.drained)
    ensures exists events :: Completes(s, events, s.main.cause)
    decreases WorkLeft(s), if s.drained then 0 else 1, 0
  {
    var t := Step(s, e).value;
    StepKeepsInv(s, e);
    WorkerStepsDecrease(s, e);
    assert t.main == s.main;
    DrainCompletes(t);
    var events :| Completes(t, events, t.main.cause);
    assert ([e] + events)[1..] == events;
    assert Run(s, [e] + events) == Run(t, events);
    assert Completes(s, [e] + events, s.main.cause);
  }

  // ------------------------------------------------- every error is accounted for

  /** Component i's goroutine has an error in hand that it has yet to report. */
  predicate HasInHand(c: Component, error: string) {
    c == Failed(error) || c == Reporting(error)
  }

  /** Component i looked at the context when it was already done: its error is not an
      error then. */
  predicate Silenced(s: State, events: seq<Event>, i: nat)
    requires s.taken <= |s.sent|
    decreases |events|
  {
    events != [] && Step(s, events[0]).Some?
    && var t := Step(s, events[0]).value;
       t.taken <= |t.sent|
       && ((events[0] == ComponentInspects(i) && ContextDone(s)) || Silenced(t, events[1..], i))
  }

  /** Exactly one of three things has become of an error. */
  predicate ExactlyOne(a: bool, b: bool, c: bool) {
    (a || b || c) && !(a && b) && !(a && c) && !(b && c)
  }

  lemma FinishedStep(s: State, e: Event, i: nat)
    requires Inv(s) && i < COMPONENTS && s.components[i].Finished? && Step(s, e).Some?
    ensures var t := Step(s, e).value;
            && t.components[i].Finished? && e != ComponentInspects(i)
            && forall error :: (i, error) in t.sent <==> (i, error) in s.sent
  {
    if e.ComponentReports? {
      ReporterFindsRoom(s, e.i);
    }
  }

  lemma {:induction false} FinishedStays(s: State, events: seq<Event>, i: nat)
    requires Inv(s) && i < COMPONENTS && s.components[i].Finished? && Run(s, events).Some?
    ensures var t := Run(s, events).value;
            && t.components[i].Finished? && !Silenced(s, events, i)
            && forall error :: (i, error) in t.sent <==> (i, error) in s.sent
    decreases |events|
  {
    if events != [] {
      StepKeepsInv(s, events[0]);
      FinishedStep(s, events[0], i);
      FinishedStays(Step(s, events[0]).value, events[1..], i);
    }
  }

  /** An error in hand stays there, or goes on the channel, or is silenced. */
  lemma {:induction false} InHandIsAccounted(s: State, events: seq<Event>, i: nat, error: string)
    requires Inv(s) && i < COMPONENTS && HasInHand(s.components[i], error) && Run(s, events).Some?
    ensures var t := Run(s, events).value;
            ExactlyOne(HasInHand(t.components[i], error), (i, error) in t.sent, Silenced(s, events, i))
    decreases |events|
  {
    NotSentYet(s, i, error);
    if events != [] {
      var e, t := events[0], Step(s, events[0]).value;
      StepKeepsInv(s, e);
      InHandStep(s, i, error, e);
      if t.components[i].Finished? {
        FinishedStays(t, events[1..], i);
      } else {
        InHandIsAccounted(t, events[1..], i, error);
      }
    }
  }

  /** What a step makes of an error in hand. */
  lemma InHandStep(s: State, i: nat, error: string, e: Event)
    requires Inv(s) && i < COMPONENTS && HasInHand(s.components[i], error) && Step(s, e).Some?
    ensures var t := Step(s, e).value;
            if e == ComponentReports(i) then t.components[i].Finished? && (i, error) in t.sent
            else if e == ComponentInspects(i) && ContextDone(s) then t.components[i].Finished? && (i, error) !in t.sent
            else HasInHand(t.components[i], error)
  {
    NotSentYet(s, i, error);
    if e == ComponentInspects(i) || e == ComponentReports(i) {
      OwnStep(s, i, error, e);
    }
  }

  lemma NotSentYet(s: State, i: nat, error: string)
    requires Inv(s) && i < COMPONENTS && !s.components[i].Finished?
    ensures (i, error) !in s.sent
  {
  }

  /** What the goroutine does with an error in hand. */
  lemma OwnStep(s: State, i: nat, error: string, e: Event)
    requires Inv(s) && i < COMPONENTS && HasInHand(s.components[i], error)
    requires (e == ComponentInspects(i) || e == ComponentReports(i)) && Step(s, e).Some?
    ensures var t := Step(s, e).value;
            if e.ComponentReports? then t.components[i].Finished? && (i, error) in t.sent
            else if ContextDone(s) then t.components[i].Finished? && t.sent == s.sent
            else t.components[i] == Reporting(error) && t.sent == s.sent
  {
    if e.ComponentReports? {
      ReporterFindsRoom(s, i);
      assert (i, error) in s.sent + [(i, error)];
    }
  }

  lemma {:induction false} RunningIsAccounted(s: State, events: seq<Event>, i: nat, error: string)
    requires Inv(s) && i < COMPONENTS && s.components[i].Running? && Run(s, events).Some?
    requires ComponentReturns(i, Some(error)) in events
    ensures var t := Run(s, events).value;
            ExactlyOne(HasInHand(t.components[i], error), (i, error) in t.sent, Silenced(s, events, i))
    decreases |events|
  {
    var t := Step(s, events[0]).value;
    StepKeepsInv(s, events[0]);
    LeavesRunning(s, i, events[0]);
    if events[0] == ComponentReturns(i, Some(error)) {
      InHandIsAccounted(t, events[1..], i, error);
    } else if t.components[i].Running? {
      RunningIsAccounted(t, events[1..], i, error);
    } else {
      ReturnsOnce(t, events[1..], i, Some(error));
      assert false;
    }
  }

  /** A component leaves Running by returning, and never runs again. */
  lemma LeavesRunning(s: State, i: nat, e: Event)
    requires Inv(s) && i < COMPONENTS && s.components[i].Running? && Step(s, e).Some?
    ensures var c := Step(s, e).value.components[i];
            if e.ComponentReturns? && e.i == i then
              c == if e.result.Some? then Failed(e.result.value) else Finished
            else c.Running?
  {
  }

  lemma NeverRunsAgain(s: State, i: nat, e: Event)
    requires Inv(s) && i < COMPONENTS && !s.components[i].Running? && Step(s, e).Some?
    ensures !Step(s, e).value.components[i].Running? && !(e.ComponentReturns? && e.i == i)
  {
  }

  lemma {:induction false} ReturnsOnce(s: State, events: seq<Event>, i: nat, result: Option<string>)
    requires Inv(s) && i < COMPONENTS && !s.components[i].Running? && Run(s, events).Some?
    ensures ComponentReturns(i, result) !in events
    decreases |events|
  {
    if events != [] {
      StepKeepsInv(s, events[0]);
      NeverRunsAgain(s, i, events[0]);
      ReturnsOnce(Step(s, events[0]).value, events[1..], i, result);
    }
  }

  /** In every run, whatever a component's goroutine returned with an error, exactly
      one of these holds: it is still to be reported; it is on the channel, or was
      received from it; or the goroutine saw that the context was done. */
  lemma ErrorsAreAccounted(tasks: nat, events: seq<Event>, i: nat, error: string)
    requires Run(Initial(tasks), events).Some? && i < COMPONENTS && ComponentReturns(i, Some(error)) in events
    ensures var s := Run(Initial(tasks), events).value;
            ExactlyOne(HasInHand(s.components[i], error), (i, error) in s.sent, Silenced(Initial(tasks), events, i))
  {
    RunningIsAccounted(Initial(tasks), events, i, error);
  }

  /** Whether component i has the error in hand or on the channel. */
  predicate HasError(s: State, i: nat, error: string) {
    (i, error) in s.sent || (i < |s.components| && HasInHand(s.components[i], error))
  }

  lemma ErrorHasSource(s: State, e: Event, i: nat, error: string)
    requires Inv(s) && Step(s, e).Some? && HasError(Step(s, e).value, i, error)
    ensures HasError(s, i, error) || e == ComponentReturns(i, Some(error))
  {
    var t := Step(s, e).value;
    if e.ComponentReports? {
      ReporterFindsRoom(s, e.i);
      assert t.sent == s.sent + [(e.i, s.components[e.i].error)];
    }
  }

  lemma {:induction false} SentHasSource(s: State, events: seq<Event>, i: nat, error: string)
    requires Inv(s) && Run(s, events).Some? && HasError(Run(s, events).value, i, error)
    ensures HasError(s, i, error) || ComponentReturns(i, Some(error)) in events
    decreases |events|
  {
    if events != [] {
      StepKeepsInv(s, events[0]);
      SentHasSource(Step(s, events[0]).value, events[1..], i, error);
      if HasError(Step(s, events[0]).value, i, error) {
        ErrorHasSource(s, events[0], i, error);
      }
    }
  }

  /** And whatever is on the channel some component returned. */
  lemma SentWasReturned(tasks: nat, events: seq<Event>, i: nat, error: string)
    requires Run(Initial(tasks), events).Some? && (i, error) in Run(Initial(tasks), events).value.sent
    ensures ComponentReturns(i, Some(error)) in events
  {
    SentHasSource(Initial(tasks), events, i, error);
  }

  lemma DoneStep(s: State, e: Event)
    requires s.taken <= |s.sent| && ContextDone(s) && Step(s, e).Some?
    ensures ContextDone(Step(s, e).value)
  {
  }

  lemma {:induction false} DoneStaysDone(s: State, events: seq<Event>, i: nat)
    requires Inv(s) && Run(s, events).Some? && (ContextDone(s) || Silenced(s, events, i))
    ensures ContextDone(Run(s, events).value)
    decreases |events|
  {
    if events != [] {
      StepKeepsInv(s, events[0]);
      if ContextDone(s) {
        DoneStep(s, events[0]);
      }
      DoneStaysDone(Step(s, events[0]).value, events[1..], i);
    }
  }

  /** While main waits and the context is not done, a component that returned an error
      and has finished has reported it, and main can stop for the first error. */
  lemma ReportedErrorStopsMain(tasks: nat, events: seq<Event>, i: nat, error: string)
    requires Run(Initial(tasks), events).Some? && i < COMPONENTS && ComponentReturns(i, Some(error)) in events
    requires var s := Run(Initial(tasks), events).value;
             s.components[i].Finished? && s.main.Waiting? && !ContextDone(s)
    ensures var s := Run(Initial(tasks), events).value;
            && (i, error) in s.sent
            && Step(s, MainSelects(WorkerError(s.sent[0].1))).Some?
  {
    RunsKeepInv(Initial(tasks), events);
    ErrorsAreAccounted(tasks, events, i, error);
    if Silenced(Initial(tasks), events, i) {
      DoneStaysDone(Initial(tasks), events, i);
    }
  }

  /** Main can stop exactly when there is a reason to; having stopped it can cancel,
      and then every context is done; and while it drains it may give up at any time. */
  lemma MainStopsExactly(tasks: nat, events: seq<Event>)
    requires Run(Initial(tasks), events).Some?
    ensures var s := Run(Initial(tasks), events).value;
            && (s.main.Waiting? ==>
                  ((exists cause :: Step(s, MainSelects(cause)).Some?) <==>
                   s.parentDone || s.sent != [] || s.telemetry.Some?))
            && (s.main.Selected? ==>
                  && Step(s, MainCancels).Some? && Step(s, MainCancels).value.main == Draining(s.main.cause)
                  && ContextDone(Step(s, MainCancels).value))
            && (s.main.Draining? ==> Step(s, MainTimesOut) == Some(s.(main := TimedOut(s.main.cause))))
  {
    RunsKeepInv(Initial(tasks), events);
    var s := Run(Initial(tasks), events).value;
    if s.main.Waiting? {
      if s.parentDone {
        assert Step(s, MainSelects(ParentCancelled)).Some?;
      } else if s.sent != [] {
        assert Step(s, MainSelects(WorkerError(s.sent[0].1))).Some?;
      } else if s.telemetry.Some? {
        assert Step(s, MainSelects(TelemetryError(s.telemetry.value))).Some?;
      }
    }
  }
}
