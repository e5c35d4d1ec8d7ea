/** The relay state and the Matter attribute that shows it, kept equal by three threads:
    the runtime task, the Matter stack and start-up. Every step is atomic, and the steps
    of the threads interleave in any order. */
module Relay {
  import opened Uhal

  const QUEUE_DEPTH := 8

  datatype Item = ButtonEdge | SetSwitch(on: bool)

  /** The runtime task: about to publish a new relay state, about to look whether Matter
      has started, and inside `schedule_state_report`. */
  datatype Runtime = Resting | Publish | LookStarted | RExchange | RSchedule | RUndo

  /** The Matter stack: inside `report_state` with the value it loaded, inside the
      `schedule_state_report` at its end, and inside a write from outside. */
  datatype Matter =
    | Idle
    | Load
    | Update(value: bool)
    | ClearFlag(value: bool)
    | Recheck(value: bool)
    | MExchange
    | MSchedule
    | MUndo
    | Writing(value: bool)

  /** Start-up: it creates the attribute from the pending state, starts the stack, sets
      `started_` and schedules a first report. */
  datatype Startup = Reading | Creating(value: bool) | Starting | Running | SExchange | SSchedule | SUndo | Done

  /** `dropped`, for the observer: a failed call lost a report, and none was begun since. */
  datatype State = State(
    relay: bool, pending: bool, started: bool, scheduled: bool,
    work: bool, attribute: bool, queue: seq<Item>,
    runtime: Runtime, matter: Matter, startup: Startup,
    dropped: bool)

  datatype Step =
    // from outside: an edge, a classified short press, a write of the attribute
    | Edge
    | ShortPress
    | RemoteWrite(value: bool)
    // the runtime task
    | Receive
    | StorePending
    | ReadStarted
    | RuntimeExchange
    | RuntimeScheduleWork(ok: bool)
    | RuntimeUndo
    // the Matter stack
    | TakeWork
    | LoadPending
    | UpdateAttribute(ok: bool)
    | ClearScheduled
    | CheckPending
    | MatterExchange
    | MatterScheduleWork(ok: bool)
    | MatterUndo
    | FinishWrite
    // start-up
    | ReadPending
    | CreateAttribute
    | StartStack
    | SetStarted
    | StartupExchange
    | StartupScheduleWork(ok: bool)
    | StartupUndo

  /** The application has been initialized, and told Matter the restored state. */
  function Start(restored: bool): State {
    State(restored, restored, false, false, false, false, [], Resting, Idle, Reading, false)
  }

  predicate StackRuns(s: Startup) { s.Running? || s.SExchange? || s.SSchedule? || s.SUndo? || s.Done? }

  /** The attribute callback: a write from outside is posted to the runtime's queue, and
      refused if that is full; the node's own report is let through. */
  function PreUpdate(applyingReport: bool, queue: seq<Item>, value: bool): (bool, seq<Item>) {
    if applyingReport then (true, queue)
    else if |queue| < QUEUE_DEPTH then (true, queue + [SetSwitch(value)])
    else (false, queue)
  }

  predicate Enabled(s: State, step: Step) {
    match step
    case Edge => true
    case ShortPress => s.runtime.Resting?
    case RemoteWrite(_) => s.matter.Idle? && StackRuns(s.startup)
    case Receive => s.runtime.Resting? && s.queue != []
    case StorePending => s.runtime.Publish?
    case ReadStarted => s.runtime.LookStarted?
    case RuntimeExchange => s.runtime.RExchange?
    case RuntimeScheduleWork(_) => s.runtime.RSchedule?
    case RuntimeUndo => s.runtime.RUndo?
    case TakeWork => s.matter.Idle? && s.work && StackRuns(s.startup)
    case LoadPending => s.matter.Load?
    case UpdateAttribute(_) => s.matter.Update?
    case ClearScheduled => s.matter.ClearFlag?
    case CheckPending => s.matter.Recheck?
    case MatterExchange => s.matter.MExchange?
    case MatterScheduleWork(_) => s.matter.MSchedule?
    case MatterUndo => s.matter.MUndo?
    case FinishWrite => s.matter.Writing?
    case ReadPending => s.startup.Reading?
    case CreateAttribute => s.startup.Creating?
    case StartStack => s.startup.Starting?
    case SetStarted => s.startup.Running?
    case StartupExchange => s.startup.SExchange?
    case StartupScheduleWork(_) => s.startup.SSchedule?
    case StartupUndo => s.startup.SUndo?
  }

  function FromOutside(s: State, step: Step): State
    requires Enabled(s, step) && (step.Edge? || step.ShortPress? || step.RemoteWrite?)
  {
    match step
    case Edge => if |s.queue| < QUEUE_DEPTH then s.(queue := s.queue + [ButtonEdge]) else s
    case ShortPress => s.(relay := !s.relay, runtime := Publish)
    case RemoteWrite(value) =>
      var (accepted, queue) := PreUpdate(false, s.queue, value);
      if accepted then s.(queue := queue, matter := Writing(value)) else s
  }

  predicate IsRuntime(step: Step) {
    step.Receive? || step.StorePending? || step.ReadStarted? || step.RuntimeExchange? || step.RuntimeScheduleWork?
    || step.RuntimeUndo?
  }

  function RuntimeNext(s: State, step: Step): State
    requires Enabled(s, step) && IsRuntime(step)
  {
    match step
    case Receive =>
      var s1 := s.(queue := s.queue[1..]);
      if s.queue[0].SetSwitch? && s.queue[0].on != s.relay then s1.(relay := s.queue[0].on, runtime := Publish) else s1
    case StorePending => s.(pending := s.relay, runtime := LookStarted)
    case ReadStarted => s.(runtime := if s.started then RExchange else Resting)
    case RuntimeExchange => s.(scheduled := true, runtime := if s.scheduled then Resting else RSchedule)
    case RuntimeScheduleWork(ok) =>
      if ok then s.(work := true, runtime := Resting) else s.(runtime := RUndo, dropped := true)
    case RuntimeUndo => s.(scheduled := false, runtime := Resting)
  }

  predicate IsMatter(step: Step) {
    step.TakeWork? || step.LoadPending? || step.UpdateAttribute? || step.ClearScheduled? || step.CheckPending?
    || step.MatterExchange? || step.MatterScheduleWork? || step.MatterUndo? || step.FinishWrite?
  }

  function MatterNext(s: State, step: Step): State
    requires Enabled(s, step) && IsMatter(step)
  {
    match step
    case TakeWork => s.(work := false, matter := Load)
    case LoadPending => s.(matter := Update(s.pending), dropped := false)
    case UpdateAttribute(ok) =>
      var (accepted, queue) := PreUpdate(true, s.queue, s.matter.value);
      if ok && accepted then s.(attribute := s.matter.value, queue := queue, matter := ClearFlag(s.matter.value))
      else s.(matter := ClearFlag(s.matter.value), dropped := true)
    case ClearScheduled => s.(scheduled := false, matter := Recheck(s.matter.value))
    case CheckPending => s.(matter := if s.pending != s.matter.value then MExchange else Idle)
    case MatterExchange => s.(scheduled := true, matter := if s.scheduled then Idle else MSchedule)
    case MatterScheduleWork(ok) =>
      if ok then s.(work := true, matter := Idle) else s.(matter := MUndo, dropped := true)
    case MatterUndo => s.(scheduled := false, matter := Idle)
    case FinishWrite => s.(attribute := s.matter.value, matter := Idle)
  }

  predicate IsStartup(step: Step) {
    step.ReadPending? || step.CreateAttribute? || step.StartStack? || step.SetStarted? || step.StartupExchange?
    || step.StartupScheduleWork? || step.StartupUndo?
  }

  function StartupNext(s: State, step: Step): State
    requires Enabled(s, step) && IsStartup(step)
  {
    match step
    case ReadPending => s.(startup := Creating(s.pending))
    case CreateAttribute => s.(attribute := s.startup.value, startup := Starting)
    case StartStack => s.(startup := Running)
    case SetStarted => s.(started := true, startup := SExchange)
    case StartupExchange => s.(scheduled := true, startup := if s.scheduled then Done else SSchedule)
    case StartupScheduleWork(ok) =>
      if ok then s.(work := true, startup := Done) else s.(startup := SUndo, dropped := true)
    case StartupUndo => s.(scheduled := false, startup := Done)
  }

  function Next(s: State, step: Step): State
    requires Enabled(s, step)
  {
    if IsRuntime(step) then RuntimeNext(s, step)
    else if IsMatter(step) then MatterNext(s, step)
    else if IsStartup(step) then StartupNext(s, step)
    else FromOutside(s, step)
  }

  // ---- the invariant ------------------------------------------------------------------------

  /** Who holds the one report that the flag stands for. */
  function Holders(s: State): nat {
    (if s.runtime.RSchedule? || s.runtime.RUndo? then 1 else 0) +
    (if s.matter.Load? || s.matter.Update? || s.matter.ClearFlag? || s.matter.MSchedule? || s.matter.MUndo?
     then 1 else 0) +
    (if s.startup.SSchedule? || s.startup.SUndo? then 1 else 0) +
    (if s.work then 1 else 0)
  }

  /** A report that will see the relay's state is on its way. */
  predicate Coming(s: State) {
    || (!s.runtime.Resting? && !s.runtime.RUndo?)
    || (!s.startup.Done? && !s.startup.SUndo?)
    || s.work
    || s.matter.Load? || s.matter.Update? || s.matter.MExchange? || s.matter.MSchedule?
    || ((s.matter.ClearFlag? || s.matter.Recheck?) && s.matter.value != s.pending)
  }

  /** A command that will change the relay is waiting. */
  predicate Waiting(s: State) {
    exists i :: 0 <= i < |s.queue| && s.queue[i].SetSwitch? && s.queue[i].on != s.relay
  }

  /** The flag stands for exactly one holder; who runs, and what is pending. */
  predicate Booked(s: State) {
    && |s.queue| <= QUEUE_DEPTH
    && (s.scheduled <==> Holders(s) == 1) && Holders(s) <= 1
    && (s.started <==> StackRuns(s.startup) && !s.startup.Running?)
    && (!StackRuns(s.startup) ==> s.matter.Idle?)
    && (!s.started ==> !s.scheduled && !s.runtime.RExchange? && (s.matter.Idle? || s.matter.Writing?))
    && (s.runtime.RUndo? || s.matter.MUndo? || s.startup.SUndo? ==> s.dropped)
    && (s.runtime.Publish? || s.pending == s.relay)
  }

  /** The attribute shows the relay, or something is on its way that will make it: a
      report, or, if `waiting`, a command. */
  predicate Shown(s: State, waiting: bool) {
    !s.dropped ==>
      && ((s.matter.ClearFlag? || s.matter.Recheck?) ==> s.attribute == s.matter.value)
      && (Coming(s) || waiting || s.attribute == s.relay)
      && (s.matter.Writing? ==> Coming(s) || waiting || s.matter.value == s.relay)
  }

  predicate Inv(s: State) { Booked(s) && Shown(s, Waiting(s)) }

  lemma StartIsSound(restored: bool)
    ensures Inv(Start(restored))
  {}

  lemma SameWaiting(s: State, s1: State)
    requires s1.queue == s.queue && s1.relay == s.relay
    ensures Waiting(s1) == Waiting(s)
  {}

  lemma ReceiveKeeps(s: State)
    requires Inv(s) && Enabled(s, Receive)
    ensures Inv(RuntimeNext(s, Receive))
  {
    var s1 := RuntimeNext(s, Receive);
    if Waiting(s) && !s1.runtime.Publish? { ReceiveWaits(s); }
    hide Waiting;
  }

  /** Taking an item that changes nothing leaves the waiting command in the queue. */
  lemma ReceiveWaits(s: State)
    requires Enabled(s, Receive) && Waiting(s) && !RuntimeNext(s, Receive).runtime.Publish?
    ensures Waiting(RuntimeNext(s, Receive))
  {
    var s1 := RuntimeNext(s, Receive);
    var i :| 0 <= i < |s.queue| && s.queue[i].SetSwitch? && s.queue[i].on != s.relay;
    assert s1.queue[i - 1] == s.queue[i];
  }

  lemma RuntimeKeeps(s: State, step: Step)
    requires Inv(s) && Enabled(s, step) && IsRuntime(step) && !step.Receive?
    ensures Inv(RuntimeNext(s, step))
  {
    RuntimeBooks(s, step);
    RuntimeShows(s, step, Waiting(s));
    RuntimeLeavesCommands(s, step);
    SameWaiting(s, RuntimeNext(s, step));
    hide Booked, Shown, RuntimeNext, Waiting;
  }

  lemma RuntimeBooks(s: State, step: Step)
    requires Booked(s) && Enabled(s, step) && IsRuntime(step) && !step.Receive?
    ensures Booked(RuntimeNext(s, step))
  {
    match step {
      case StorePending =>
      case ReadStarted =>
      case RuntimeExchange =>
      case RuntimeScheduleWork(_) =>
      case RuntimeUndo =>
    }
  }

  lemma RuntimeShows(s: State, step: Step, waiting: bool)
    requires Booked(s) && Shown(s, waiting) && Enabled(s, step) && IsRuntime(step) && !step.Receive?
    ensures Shown(RuntimeNext(s, step), waiting)
  {
    match step {
      case StorePending =>
      case ReadStarted =>
      case RuntimeExchange =>
      case RuntimeScheduleWork(_) =>
      case RuntimeUndo =>
    }
  }

  lemma MatterKeeps(s: State, step: Step)
    requires Inv(s) && Enabled(s, step) && IsMatter(step)
    ensures Inv(MatterNext(s, step))
  {
    MatterBooks(s, step);
    MatterShows(s, step, Waiting(s));
    MatterLeavesCommands(s, step);
    SameWaiting(s, MatterNext(s, step));
    hide Booked, Shown, MatterNext, Waiting;
  }

  lemma MatterBooks(s: State, step: Step)
    requires Booked(s) && Enabled(s, step) && IsMatter(step)
    ensures Booked(MatterNext(s, step))
  {
    match step {
      case TakeWork =>
      case LoadPending =>
      case UpdateAttribute(_) =>
      case ClearScheduled =>
      case CheckPending =>
      case MatterExchange =>
      case MatterScheduleWork(_) =>
      case MatterUndo =>
      case FinishWrite =>
    }
  }

  lemma MatterShows(s: State, step: Step, waiting: bool)
    requires Booked(s) && Shown(s, waiting) && Enabled(s, step) && IsMatter(step)
    ensures Shown(MatterNext(s, step), waiting)
  {
    match step {
      case TakeWork =>
      case LoadPending =>
      case UpdateAttribute(_) =>
      case ClearScheduled =>
      case CheckPending =>
      case MatterExchange =>
      case MatterScheduleWork(_) =>
      case MatterUndo =>
      case FinishWrite =>
    }
  }

  lemma StartupKeeps(s: State, step: Step)
    requires Inv(s) && Enabled(s, step) && IsStartup(step)
    ensures Inv(StartupNext(s, step))
  {
    StartupBooks(s, step);
    StartupShows(s, step, Waiting(s));
    StartupLeavesCommands(s, step);
    SameWaiting(s, StartupNext(s, step));
    hide Booked, Shown, StartupNext, Waiting;
  }

  lemma StartupBooks(s: State, step: Step)
    requires Booked(s) && Enabled(s, step) && IsStartup(step)
    ensures Booked(StartupNext(s, step))
  {
    match step {
      case ReadPending =>
      case CreateAttribute =>
      case StartStack =>
      case SetStarted =>
      case StartupExchange =>
      case StartupScheduleWork(_) =>
      case StartupUndo =>
    }
  }

  lemma StartupShows(s: State, step: Step, waiting: bool)
    requires Booked(s) && Shown(s, waiting) && Enabled(s, step) && IsStartup(step)
    ensures Shown(StartupNext(s, step), waiting)
  {
    match step {
      case ReadPending =>
      case CreateAttribute =>
      case StartStack =>
      case SetStarted =>
      case StartupExchange =>
      case StartupScheduleWork(_) =>
      case StartupUndo =>
    }
  }

  lemma OutsideKeeps(s: State, step: Step)
    requires Inv(s) && Enabled(s, step) && (step.Edge? || step.ShortPress? || step.RemoteWrite?)
    ensures Inv(FromOutside(s, step))
  {
    var s1 := FromOutside(s, step);
    if !step.ShortPress? && |s.queue| < QUEUE_DEPTH {
      if Waiting(s) {
        var i :| 0 <= i < |s.queue| && s.queue[i].SetSwitch? && s.queue[i].on != s.relay;
        assert s1.queue[i] == s.queue[i];
      }
      assert s1.queue[|s.queue|] == if step.Edge? then ButtonEdge else SetSwitch(step.value);
    }
  }

  lemma StepKeeps(s: State, step: Step)
    requires Inv(s) && Enabled(s, step)
    ensures Inv(Next(s, step))
  {
    if step.Receive? { ReceiveKeeps(s); }
    else if IsRuntime(step) { RuntimeKeeps(s, step); }
    else if IsMatter(step) { MatterKeeps(s, step); }
    else if IsStartup(step) { StartupKeeps(s, step); }
    else { OutsideKeeps(s, step); }
    hide Inv, RuntimeNext, MatterNext, StartupNext, FromOutside;
  }

  // ---- whole runs --------------------------------------------------------------------------

  function Run(restored: bool, steps: seq<Step>): Option<State> {
    if steps == [] then Some(Start(restored))
    else
      match Run(restored, steps[..|steps| - 1])
      case None => None
      case Some(s) => if Enabled(s, steps[|steps| - 1]) then Some(Next(s, steps[|steps| - 1])) else None
  }

  lemma {:induction false} RunKeeps(restored: bool, steps: seq<Step>)
    ensures Run(restored, steps).Some? ==> Inv(Run(restored, steps).value)
  {
    if steps == [] {
      StartIsSound(restored);
    } else {
      RunKeeps(restored, steps[..|steps| - 1]);
      hide Inv, Next, Enabled;
      var before := Run(restored, steps[..|steps| - 1]);
      if before.Some? && Enabled(before.value, steps[|steps| - 1]) { StepKeeps(before.value, steps[|steps| - 1]); }
    }
  }

  predicate Quiescent(s: State) {
    s.queue == [] && s.runtime.Resting? && s.matter.Idle? && s.startup.Done? && !s.work
  }

  /** No update is lost to coalescing: in every interleaving, once the queue is empty, the
      threads are idle and no report is scheduled, the attribute, the pending state and the
      relay agree, unless a failed call dropped a report and none was begun since. */
  lemma QuiescentAgree(restored: bool, steps: seq<Step>)
    requires Run(restored, steps).Some? && Quiescent(Run(restored, steps).value)
    ensures var s := Run(restored, steps).value;
            && s.pending == s.relay && !s.scheduled
            && (!s.dropped ==> s.attribute == s.relay)
  {
    RunKeeps(restored, steps);
    hide Run;
  }

  predicate Fails(step: Step) {
    (step.RuntimeScheduleWork? && !step.ok) || (step.MatterScheduleWork? && !step.ok)
    || (step.StartupScheduleWork? && !step.ok) || (step.UpdateAttribute? && !step.ok)
  }

  lemma StepDropsNothing(s: State, step: Step)
    requires Enabled(s, step) && !Fails(step) && !s.dropped
    ensures !Next(s, step).dropped
  {
    if IsRuntime(step) { RuntimeDropsNothing(s, step); }
    else if IsMatter(step) { MatterDropsNothing(s, step); }
    else if IsStartup(step) { StartupDropsNothing(s, step); }
    else { OutsideDropsNothing(s, step); }
    hide RuntimeNext, MatterNext, StartupNext, FromOutside;
  }

  lemma {:induction false} RuntimeDropsNothing(s: State, step: Step)
    requires Enabled(s, step) && IsRuntime(step) && !Fails(step) && !s.dropped
    ensures !RuntimeNext(s, step).dropped
  {
    match step {
      case RuntimeScheduleWork(_) =>
      case _ =>
    }
  }

  lemma {:induction false} MatterDropsNothing(s: State, step: Step)
    requires Enabled(s, step) && IsMatter(step) && !Fails(step) && !s.dropped
    ensures !MatterNext(s, step).dropped
  {
    match step {
      case UpdateAttribute(_) =>
      case MatterScheduleWork(_) =>
      case _ =>
    }
  }

  lemma {:induction false} StartupDropsNothing(s: State, step: Step)
    requires Enabled(s, step) && IsStartup(step) && !Fails(step) && !s.dropped
    ensures !StartupNext(s, step).dropped
  {
    match step {
      case StartupScheduleWork(_) =>
      case _ =>
    }
  }

  lemma {:induction false} OutsideDropsNothing(s: State, step: Step)
    requires Enabled(s, step) && (step.Edge? || step.ShortPress? || step.RemoteWrite?) && !s.dropped
    ensures !FromOutside(s, step).dropped
  {
    match step {
      case RemoteWrite(_) =>
      case _ =>
    }
  }

  /** If every call succeeds, the exception does not apply. */
  lemma {:induction false} NothingDropped(restored: bool, steps: seq<Step>)
    requires Run(restored, steps).Some? && forall i :: 0 <= i < |steps| ==> !Fails(steps[i])
    ensures !Run(restored, steps).value.dropped
  {
    if steps != [] {
      var n := |steps| - 1;
      NothingDropped(restored, steps[..n]);
      StepDropsNothing(Run(restored, steps[..n]).value, steps[n]);
      hide Next, Enabled, Fails;
    }
  }

  /** A press in a settled node whose `ScheduleWork` fails is never reported: the threads
      come to rest with the attribute showing the old state. */
  lemma FailedScheduleLosesReport(s: State)
    requires Inv(s) && Quiescent(s) && !s.dropped
    ensures exists s1, s2, s3, s4, s5, s6 ::
              && Enabled(s, ShortPress) && s1 == Next(s, ShortPress)
              && Enabled(s1, StorePending) && s2 == Next(s1, StorePending)
              && Enabled(s2, ReadStarted) && s3 == Next(s2, ReadStarted)
              && Enabled(s3, RuntimeExchange) && s4 == Next(s3, RuntimeExchange)
              && Enabled(s4, RuntimeScheduleWork(false)) && s5 == Next(s4, RuntimeScheduleWork(false))
              && Enabled(s5, RuntimeUndo) && s6 == Next(s5, RuntimeUndo)
              && Quiescent(s6) && s6.attribute != s6.relay
  {
    assert s.attribute == s.relay && s.started && !s.scheduled;
    hide Inv, MatterNext, StartupNext, IsMatter, IsStartup;
    var s1 := Next(s, ShortPress);
    var s2 := Next(s1, StorePending);
    var s3 := Next(s2, ReadStarted);
    var s4 := Next(s3, RuntimeExchange);
    var s5 := Next(s4, RuntimeScheduleWork(false));
    var s6 := Next(s5, RuntimeUndo);
    assert Enabled(s5, RuntimeUndo) && Quiescent(s6) && s6.attribute != s6.relay;
  }

  // ---- coming to rest ----------------------------------------------------------------------

  function RuntimeRank(r: Runtime): nat {
    match r
    case Resting => 0
    case RUndo => 1
    case RSchedule => 6
    case RExchange => 7
    case LookStarted => 8
    case Publish => 17
  }

  function MatterRank(m: Matter, pending: bool): nat {
    match m
    case Idle => 0
    case Writing(_) => 1
    case MUndo => 1
    case Recheck(value) => if value != pending then 8 else 1
    case ClearFlag(value) => if value != pending then 9 else 2
    case Update(value) => if value != pending then 10 else 3
    case Load => 4
    case MSchedule => 6
    case MExchange => 7
  }

  function StartupRank(s: Startup): nat {
    match s
    case Done => 0
    case SUndo => 1
    case SSchedule => 6
    case SExchange => 7
    case Running => 8
    case Starting => 9
    case Creating(_) => 10
    case Reading => 11
  }

  function Rank(s: State): nat {
    RuntimeRank(s.runtime) + MatterRank(s.matter, s.pending) + StartupRank(s.startup) + (if s.work then 5 else 0)
    + 18 * |s.queue|
  }

  /** A step of some thread of the node, its calls succeeding. */
  function Pick(s: State): Step
    requires !Quiescent(s)
  {
    match s.runtime
    case Publish => StorePending
    case LookStarted => ReadStarted
    case RExchange => RuntimeExchange
    case RSchedule => RuntimeScheduleWork(true)
    case RUndo => RuntimeUndo
    case Resting => if s.queue != [] then Receive else PickMatter(s)
  }

  function PickMatter(s: State): Step {
    match s.matter
    case Load => LoadPending
    case Update(_) => UpdateAttribute(true)
    case ClearFlag(_) => ClearScheduled
    case Recheck(_) => CheckPending
    case MExchange => MatterExchange
    case MSchedule => MatterScheduleWork(true)
    case MUndo => MatterUndo
    case Writing(_) => FinishWrite
    case Idle => if s.work && StackRuns(s.startup) then TakeWork else PickStartup(s.startup)
  }

  function PickStartup(s: Startup): Step {
    match s
    case Reading => ReadPending
    case Creating(_) => CreateAttribute
    case Starting => StartStack
    case Running => SetStarted
    case SExchange => StartupExchange
    case SSchedule => StartupScheduleWork(true)
    case SUndo => StartupUndo
    case Done => TakeWork
  }

  lemma RuntimeRanksDown(s: State, step: Step)
    requires Inv(s) && Enabled(s, step) && IsRuntime(step) && !Fails(step)
    ensures Rank(RuntimeNext(s, step)) < Rank(s)
  {
    hide Waiting, Shown, StartupRank, MatterRank;
    if step.StorePending? { MatterRankMoves(s.matter, s.pending, s.relay); }
  }

  lemma MatterRankMoves(m: Matter, pending: bool, relay: bool)
    ensures MatterRank(m, relay) <= MatterRank(m, pending) + 7
  {}

  lemma MatterRanksDown(s: State, step: Step)
    requires Inv(s) && Enabled(s, step) && IsMatter(step) && !Fails(step)
    ensures Rank(MatterNext(s, step)) < Rank(s)
  {
    hide Waiting, Coming, RuntimeRank, StartupRank;
  }

  lemma StartupRanksDown(s: State, step: Step)
    requires Inv(s) && Enabled(s, step) && IsStartup(step) && !Fails(step)
    ensures Rank(StartupNext(s, step)) < Rank(s)
  {}

  predicate Internal(step: Step) { IsRuntime(step) || IsMatter(step) || IsStartup(step) }

  /** Every step of a thread of the node, whichever is taken, brings it closer to rest. */
  lemma StepRanksDown(s: State, step: Step)
    requires Inv(s) && Enabled(s, step) && Internal(step) && !Fails(step)
    ensures Rank(Next(s, step)) < Rank(s)
  {
    if IsRuntime(step) { RuntimeRanksDown(s, step); }
    else if IsMatter(step) { MatterRanksDown(s, step); }
    else { StartupRanksDown(s, step); }
    hide Inv, Rank, RuntimeNext, MatterNext, StartupNext, FromOutside;
  }

  /** There is no deadlock: until it is at rest, some thread of the node can take a step. */
  lemma PickIsEnabled(s: State)
    requires Inv(s) && !Quiescent(s)
    ensures var step := Pick(s);
            Enabled(s, step) && Internal(step) && !Fails(step)
  {}

  /** The node left to itself, its calls succeeding. */
  ghost function Settled(s: State): State
    requires Inv(s)
    decreases Rank(s)
  {
    if Quiescent(s) then s
    else
      PickIsEnabled(s);
      StepRanksDown(s, Pick(s));
      StepKeeps(s, Pick(s));
      Settled(Next(s, Pick(s)))
  }

  /** The relay's state after the commands that wait for it. */
  function Commanded(relay: bool, queue: seq<Item>): bool
    decreases |queue|
  {
    if queue == [] then relay
    else Commanded(if queue[0].SetSwitch? then queue[0].on else relay, queue[1..])
  }

  lemma PickCommands(s: State)
    requires Inv(s) && !Quiescent(s)
    ensures var s1 := Next(s, Pick(s));
            Commanded(s1.relay, s1.queue) == Commanded(s.relay, s.queue) && (!s.dropped ==> !s1.dropped)
  {
    var step := Pick(s);
    PickIsEnabled(s);
    if !s.dropped { StepDropsNothing(s, step); }
    if step.Receive? {
      CommandTaken(s.relay, s.queue);
      hide Inv, Commanded, MatterNext, StartupNext, FromOutside, Pick;
    } else {
      OthersLeaveCommands(s, step);
      hide Inv, Commanded, Next, Pick;
    }
  }

  lemma OthersLeaveCommands(s: State, step: Step)
    requires Enabled(s, step) && Internal(step) && !step.Receive?
    ensures Next(s, step).relay == s.relay && Next(s, step).queue == s.queue
  {
    if IsRuntime(step) { RuntimeLeavesCommands(s, step); }
    else if IsMatter(step) { MatterLeavesCommands(s, step); }
    else { StartupLeavesCommands(s, step); }
    hide RuntimeNext, MatterNext, StartupNext, FromOutside, Enabled;
  }

  lemma {:induction false} RuntimeLeavesCommands(s: State, step: Step)
    requires Enabled(s, step) && IsRuntime(step) && !step.Receive?
    ensures RuntimeNext(s, step).relay == s.relay && RuntimeNext(s, step).queue == s.queue
  {
    match step {
      case RuntimeScheduleWork(_) =>
      case StorePending =>
      case _ =>
    }
  }

  lemma {:induction false} MatterLeavesCommands(s: State, step: Step)
    requires Enabled(s, step) && IsMatter(step)
    ensures MatterNext(s, step).relay == s.relay && MatterNext(s, step).queue == s.queue
  {
    match step {
      case UpdateAttribute(_) =>
      case MatterScheduleWork(_) =>
      case _ =>
    }
  }

  lemma {:induction false} StartupLeavesCommands(s: State, step: Step)
    requires Enabled(s, step) && IsStartup(step)
    ensures StartupNext(s, step).relay == s.relay && StartupNext(s, step).queue == s.queue
  {
    match step {
      case StartupScheduleWork(_) =>
      case ReadPending =>
      case _ =>
    }
  }

  lemma CommandTaken(relay: bool, queue: seq<Item>)
    requires queue != []
    ensures Commanded(relay, queue) == Commanded(if queue[0].SetSwitch? then queue[0].on else relay, queue[1..])
  {}

  /** Left to itself, the node comes to rest with every waiting command carried out and
      the attribute showing the result. */
  lemma {:induction false} SettlesInAgreement(s: State)
    requires Inv(s) && !s.dropped
    ensures var q := Settled(s);
            && Quiescent(q) && q.relay == Commanded(s.relay, s.queue)
            && q.attribute == q.relay && q.pending == q.relay
    decreases Rank(s)
  {
    if !Quiescent(s) {
      PickIsEnabled(s);
      StepRanksDown(s, Pick(s));
      StepKeeps(s, Pick(s));
      PickCommands(s);
      hide Inv, Next, Rank, Commanded, Quiescent, Pick;
      SettlesInAgreement(Next(s, Pick(s)));
    }
  }

  // ---- what comes from outside ------------------------------------------------------------------

  lemma {:induction false} CommandedLast(relay: bool, queue: seq<Item>, item: Item)
    ensures Commanded(relay, queue + [item]) == if item.SetSwitch? then item.on else Commanded(relay, queue)
    decreases |queue|
  {
    if queue == [] {
      assert [item][1..] == [] && queue + [item] == [item];
      assert Commanded(relay, [item]) == Commanded(if item.SetSwitch? then item.on else relay, []);
    } else {
      assert (queue + [item])[1..] == queue[1..] + [item];
      CommandedLast(if queue[0].SetSwitch? then queue[0].on else relay, queue[1..], item);
    }
  }

  /** A write from outside is taken whenever the stack is idle and the queue has room, and
      then it is the last command to be carried out: left to itself, the node comes to rest
      with relay, pending state and attribute at the value written. */
  lemma RemoteWriteIsCarriedOut(s: State, value: bool)
    requires Inv(s) && StackRuns(s.startup) && s.matter.Idle? && |s.queue| < QUEUE_DEPTH
    ensures Enabled(s, RemoteWrite(value))
    ensures var s1 := Next(s, RemoteWrite(value));
            && s1 == s.(queue := s.queue + [SetSwitch(value)], matter := Writing(value)) && Inv(s1)
            && (!s.dropped ==>
                  var q := Settled(s1);
                  Quiescent(q) && q.relay == value && q.pending == value && q.attribute == value)
  {
    var s1 := Next(s, RemoteWrite(value));
    OutsideIs(s, RemoteWrite(value));
    StepKeeps(s, RemoteWrite(value));
    CommandedLast(s.relay, s.queue, SetSwitch(value));
    hide Inv, Next, Settled, Commanded, Quiescent;
    if !s.dropped { SettlesInAgreement(s1); }
  }

  /** With a full queue, the write is refused and nothing changes; nor does an edge then. */
  lemma FullQueueRefuses(s: State, value: bool)
    requires |s.queue| >= QUEUE_DEPTH
    ensures Enabled(s, RemoteWrite(value)) ==> Next(s, RemoteWrite(value)) == s
    ensures Enabled(s, Edge) && Next(s, Edge) == s
  {
    if Enabled(s, RemoteWrite(value)) { OutsideIs(s, RemoteWrite(value)); }
    OutsideIs(s, Edge);
    hide Next;
  }

  /** An edge of the button is queued behind what waits, and changes no relay. */
  lemma EdgeIsQueued(s: State)
    requires Inv(s) && |s.queue| < QUEUE_DEPTH
    ensures Enabled(s, Edge) && Next(s, Edge) == s.(queue := s.queue + [ButtonEdge])
    ensures Commanded(s.relay, Next(s, Edge).queue) == Commanded(s.relay, s.queue)
  {
    OutsideIs(s, Edge);
    CommandedLast(s.relay, s.queue, ButtonEdge);
    hide Next, Commanded;
  }

  /** A short press flips the relay at once; unless a command waits, the node comes to rest
      with relay, pending state and attribute flipped. */
  lemma PressIsCarriedOut(s: State)
    requires Inv(s) && s.runtime.Resting?
    ensures Enabled(s, ShortPress)
    ensures var s1 := Next(s, ShortPress);
            && s1.relay == !s.relay && s1.queue == s.queue && Inv(s1)
            && (!s.dropped ==>
                  var q := Settled(s1);
                  && Quiescent(q) && q.pending == q.relay && q.attribute == q.relay
                  && q.relay == Commanded(!s.relay, s.queue))
  {
    var s1 := Next(s, ShortPress);
    OutsideIs(s, ShortPress);
    StepKeeps(s, ShortPress);
    hide Inv, Next, Settled, Commanded, Quiescent;
    if !s.dropped { SettlesInAgreement(s1); }
  }

  lemma {:induction false} OutsideIs(s: State, step: Step)
    requires Enabled(s, step) && (step.Edge? || step.ShortPress? || step.RemoteWrite?)
    ensures Next(s, step) ==
            match step
            case Edge => if |s.queue| < QUEUE_DEPTH then s.(queue := s.queue + [ButtonEdge]) else s
            case ShortPress => s.(relay := !s.relay, runtime := Publish)
            case RemoteWrite(value) =>
              if |s.queue| < QUEUE_DEPTH then s.(queue := s.queue + [SetSwitch(value)], matter := Writing(value)) else s
            case _ => s
  {
    match step {
      case RemoteWrite(_) =>
      case _ =>
    }
  }
}
