/** The write-behind store of the relay state: a saving task, a one-shot timer whose
    callback commits, and every interleaving of their steps. */
module BinaryStore {
  import opened Uhal

  /** The saving task: between the store of the pending value and the restart of the timer. */
  datatype Saver = Resting | Stored | Stopped

  /** The timer task: fired, but the value not read yet; or the value of the save with that
      number read, not committed. */
  datatype Flusher = Waiting | Fired | Loaded(number: nat)

  /** Saves are numbered from one, in their order; the pending value is that of the last.
      `written` is the number of the save in flash, or zero if flash holds none. */
  datatype State = State(saves: seq<bool>, armed: bool, saver: Saver, flusher: Flusher, flash: Option<bool>, written: nat)

  datatype Step =
    | Save(value: bool)          // the pending value is replaced
    | StopTimer(stopped: Status) // NotReady: the timer was not running
    | StartTimer(started: bool)
    | Fire
    | Load
    | Commit(done: bool, left: Option<bool>)

  const START := State([], false, Resting, Waiting, None, 0)

  predicate Enabled(s: State, step: Step) {
    match step
    case Save(_) => s.saver.Resting?
    case StopTimer(stopped) => s.saver.Stored? && (stopped.Ok? ==> s.armed) && (stopped.NotReady? ==> !s.armed)
    case StartTimer(_) => s.saver.Stopped?
    case Fire => s.armed && s.flusher.Waiting?
    case Load => s.flusher.Fired?
    case Commit(_, _) => s.flusher.Loaded? && 0 < s.flusher.number <= |s.saves|
  }

  /** A failed commit may leave anything. */
  function Next(s: State, step: Step): State
    requires Enabled(s, step)
  {
    match step
    case Save(value) => s.(saves := s.saves + [value], saver := Stored)
    case StopTimer(stopped) =>
      if stopped.Ok? || stopped.NotReady? then s.(armed := false, saver := Stopped) else s.(saver := Resting)
    case StartTimer(started) => s.(armed := s.armed || started, saver := Resting)
    case Fire => s.(armed := false, flusher := Fired)
    case Load => s.(flusher := Loaded(|s.saves|))
    case Commit(done, left) =>
      var n := s.flusher.number;
      if done then s.(flash := Some(s.saves[n - 1]), written := n, flusher := Waiting)
      else s.(flash := left, written := 0, flusher := Waiting)
  }

  /** Nothing is scheduled, read or written before a save, and flash holds the save it is
      said to hold. */
  predicate Inv(s: State) {
    && (s.armed || s.flusher.Fired? || !s.saver.Resting? ==> s.saves != [])
    && (s.flusher.Loaded? ==> 0 < s.flusher.number <= |s.saves| && s.written <= s.flusher.number)
    && s.written <= |s.saves|
    && (s.written > 0 ==> s.flash == Some(s.saves[s.written - 1]))
  }

  lemma StepKeeps(s: State, step: Step)
    requires Inv(s) && Enabled(s, step)
    ensures Inv(Next(s, step))
  {}

  function Run(steps: seq<Step>): Option<State> {
    if steps == [] then Some(START)
    else
      match Run(steps[..|steps| - 1])
      case None => None
      case Some(s) => if Enabled(s, steps[|steps| - 1]) then Some(Next(s, steps[|steps| - 1])) else None
  }

  // ---- what became of the last save --------------------------------------------------------------

  /** Its timer was started: it reported success. */
  predicate Scheduled(steps: seq<Step>) {
    steps != [] &&
    var (before, last) := (steps[..|steps| - 1], steps[|steps| - 1]);
    !last.Save? && (last == StartTimer(true) || Scheduled(before))
  }

  /** A callback read the pending value after it was stored. */
  predicate ReadSince(steps: seq<Step>) {
    steps != [] &&
    var (before, last) := (steps[..|steps| - 1], steps[|steps| - 1]);
    !last.Save? && (last.Load? || ReadSince(before))
  }

  /** No commit failed after it. */
  predicate NoneFailed(steps: seq<Step>) {
    steps == [] ||
    var (before, last) := (steps[..|steps| - 1], steps[|steps| - 1]);
    last.Save? || (!(last.Commit? && !last.done) && NoneFailed(before))
  }

  /** The last save is scheduled, in the hand of the callback, or in flash. */
  predicate Covered(s: State) {
    s.armed || s.flusher.Fired? || s.flusher == Loaded(|s.saves|) || s.written == |s.saves|
  }

  /** What the steps since the last save tell about the state. */
  predicate Told(s: State, scheduled: bool, read: bool) {
    && (read <==> s.flusher == Loaded(|s.saves|) || s.written == |s.saves|)
    && (scheduled ==> Covered(s) && s.saver.Resting?)
  }

  lemma StepTells(s: State, step: Step, scheduled: bool, read: bool)
    requires Inv(s) && s.saves != [] && Enabled(s, step) && !step.Save? && !(step.Commit? && !step.done)
    requires Told(s, scheduled, read)
    ensures Told(Next(s, step), scheduled || step == StartTimer(true), read || step.Load?)
  {}

  lemma {:induction false} RunTells(steps: seq<Step>)
    requires Run(steps).Some?
    ensures var s := Run(steps).value;
            Inv(s) && (s.saves != [] && NoneFailed(steps) ==> Told(s, Scheduled(steps), ReadSince(steps)))
  {
    if steps != [] {
      var (before, last) := (steps[..|steps| - 1], steps[|steps| - 1]);
      RunTells(before);
      var s := Run(before).value;
      StepKeeps(s, last);
      if s.saves != [] && !last.Save? && NoneFailed(steps) {
        StepTells(s, last, Scheduled(before), ReadSince(before));
      }
      hide Inv, Told;
      if last.Save? { SaveTells(s, last.value); }
    }
  }

  lemma SaveTells(s: State, value: bool)
    requires Inv(s) && s.saver.Resting?
    ensures Told(Next(s, Save(value)), false, false)
  {}

  predicate AtRest(s: State) { s.saver.Resting? && s.flusher.Waiting? && !s.armed }

  /** In every interleaving of saves with flushes, no commit having failed since the last
      save: at rest that save is in flash if and only if its timer was started, or a
      callback read its value after it was stored. */
  lemma AtRestFlashIsLastSave(steps: seq<Step>)
    requires Run(steps).Some? && AtRest(Run(steps).value) && NoneFailed(steps) && Run(steps).value.saves != []
    ensures var s := Run(steps).value;
            && s.written <= |s.saves| && (s.written == |s.saves| <==> Scheduled(steps) || ReadSince(steps))
            && (s.written > 0 ==> s.flash == Some(s.saves[s.written - 1]))
  {
    RunTells(steps);
    hide Run;
  }

  /** The timer task on its own, with commits that succeed. */
  function Settled(s: State): State
    requires Inv(s) && s.saver.Resting?
    decreases if s.armed then 3 else 0, if s.flusher.Fired? then 2 else if s.flusher.Loaded? then 1 else 0
  {
    match s.flusher
    case Waiting => if s.armed then Settled(Next(s, Fire)) else s
    case Fired => Settled(Next(s, Load))
    case Loaded(_) => Settled(Next(s, Commit(true, None)))
  }

  /** Left alone, the store comes to rest, with the last save in flash if and only if it is
      covered now. */
  lemma {:induction false} SettlesToLastSave(s: State)
    requires Inv(s) && s.saver.Resting? && s.saves != []
    ensures AtRest(Settled(s)) && Settled(s).saves == s.saves && Inv(Settled(s))
    ensures Settled(s).written == |s.saves| <==> Covered(s)
    decreases if s.armed then 3 else 0, if s.flusher.Fired? then 2 else if s.flusher.Loaded? then 1 else 0
  {
    match s.flusher {
      case Waiting => if s.armed { SettlesToLastSave(Next(s, Fire)); }
      case Fired => SettlesToLastSave(Next(s, Load));
      case Loaded(_) => SettlesToLastSave(Next(s, Commit(true, None)));
    }
  }

  /** A save whose timer is started reaches flash, whatever the timer task is doing: left
      alone, the store comes to rest with exactly this value there. */
  lemma SaveReachesFlash(s: State, value: bool)
    requires Inv(s) && s.saver.Resting?
    ensures var stopped := StopTimer(if s.armed then Ok else NotReady);
            && Enabled(s, Save(value)) && Enabled(Next(s, Save(value)), stopped)
            && var s2 := Next(Next(s, Save(value)), stopped);
               && Enabled(s2, StartTimer(true))
               && var s3 := Next(s2, StartTimer(true));
                  && Inv(s3) && s3.saver.Resting? && AtRest(Settled(s3)) && Settled(s3).flash == Some(value)
  {
    var s1 := Next(s, Save(value));
    var s3 := Next(Next(s1, StopTimer(if s.armed then Ok else NotReady)), StartTimer(true));
    assert s3.saves == s.saves + [value];
    SettlesToLastSave(s3);
    hide Settled;
  }

  /** Whenever a save is scheduled and not yet fired, another one whose timer start fails
      takes both down: the store is at rest, flash as it was, and only a further save can
      change that. */
  lemma FailedStartLosesEarlierSave(s: State, value: bool)
    requires Inv(s) && s.saver.Resting? && s.flusher.Waiting? && s.armed
    ensures Enabled(s, Save(value))
    ensures var s1 := Next(s, Save(value));
            Enabled(s1, StopTimer(Ok)) && Enabled(Next(s1, StopTimer(Ok)), StartTimer(false))
    ensures var s3 := Next(Next(Next(s, Save(value)), StopTimer(Ok)), StartTimer(false));
            && AtRest(s3) && s3.flash == s.flash && s3.written == s.written < |s3.saves|
            && forall step :: Enabled(s3, step) ==> step.Save?
  {}

  /** From rest, the save before it reported success and is never written. */
  lemma SuccessfulSaveIsLost(s: State, first: bool, value: bool)
    requires Inv(s) && AtRest(s)
    ensures Enabled(s, Save(first)) && Enabled(Next(s, Save(first)), StopTimer(NotReady))
    ensures Enabled(Next(Next(s, Save(first)), StopTimer(NotReady)), StartTimer(true))
    ensures var s1 := Next(Next(Next(s, Save(first)), StopTimer(NotReady)), StartTimer(true));
            && Inv(s1) && s1.saver.Resting? && s1.flusher.Waiting? && s1.armed
            && var s3 := Next(Next(Next(s1, Save(value)), StopTimer(Ok)), StartTimer(false));
               AtRest(s3) && s3.flash == s.flash && s3.written == s.written && |s3.saves| == |s.saves| + 2
  {}
}

/** The store of the claim state: an overwriting queue of one, a worker that writes, and
    a clear that erases. */
module ClaimStore {
  import opened Uhal
  import Claim

  /** The worker: with a request but without the lock, or with both. */
  datatype Worker = Idle | Got(request: nat) | Locked(request: nat)

  /** A clear: with the lock, and with the queue emptied. */
  datatype Clearer = Resting | Holding | Emptied

  /** Requests are numbered in the order of their saves; `flash` is `None` when erased. For
      the observer: the saves, the numbers written, and whether the last save was followed
      by a clear or by a failed write. */
  datatype State = State(queue: Option<nat>, worker: Worker, clearer: Clearer, flash: Option<Claim.Persistent>,
                         saves: seq<Claim.Persistent>, writes: seq<nat>, cleared: bool, failed: bool)

  datatype Step =
    | Save(state: Claim.Persistent)
    | Receive
    | Lock
    | Write(done: bool, left: Option<Claim.Persistent>)
    | ClearLock
    | ClearQueue
    | ClearErase(erased: bool, left: Option<Claim.Persistent>)

  const START := State(None, Idle, Resting, None, [], [], false, false)

  predicate LockFree(s: State) { !s.worker.Locked? && s.clearer.Resting? }

  predicate Enabled(s: State, step: Step) {
    match step
    case Save(_) => true
    case Receive => s.worker.Idle? && s.queue.Some?
    case Lock => s.worker.Got? && LockFree(s)
    case Write(_, _) => s.worker.Locked? && s.worker.request < |s.saves|
    case ClearLock => LockFree(s)
    case ClearQueue => s.clearer.Holding?
    case ClearErase(_, _) => s.clearer.Emptied?
  }

  /** A failed write or erase may leave anything. */
  function Next(s: State, step: Step): State
    requires Enabled(s, step)
  {
    match step
    case Save(state) =>
      s.(queue := Some(|s.saves|), saves := s.saves + [state], cleared := false, failed := false)
    case Receive => s.(queue := None, worker := Got(s.queue.value))
    case Lock => s.(worker := Locked(s.worker.request))
    case Write(done, left) =>
      var i := s.worker.request;
      s.(worker := Idle, flash := if done then Some(s.saves[i]) else left,
         writes := if done then s.writes + [i] else s.writes, failed := s.failed || !done)
    case ClearLock => s.(clearer := Holding)
    case ClearQueue => s.(clearer := Emptied, queue := None, cleared := true)
    case ClearErase(erased, left) => s.(clearer := Resting, flash := if erased then None else left)
  }

  // ---- order ---------------------------------------------------------------------------------

  /** The worker's request, if it has one. */
  function Pending(w: Worker): Option<nat> { if w.Idle? then None else Some(w.request) }

  /** Written requests are in order, then comes the worker's, then the queue's, which is the
      last save. */
  predicate Ordered(s: State) {
    && (forall i, j :: 0 <= i < j < |s.writes| ==> s.writes[i] < s.writes[j])
    && (forall i :: 0 <= i < |s.writes| ==>
          s.writes[i] < |s.saves| && (!s.worker.Idle? ==> s.writes[i] < s.worker.request)
          && (s.queue.Some? ==> s.writes[i] < s.queue.value))
    && (!s.worker.Idle? ==> s.worker.request < |s.saves| && (s.queue.Some? ==> s.worker.request < s.queue.value))
    && (s.queue.Some? ==> s.queue.value + 1 == |s.saves|)
  }

  /** The last save is waiting, being written, or in flash. */
  predicate Covered(s: State) {
    var last := |s.saves| - 1;
    || s.queue.Some?
    || Pending(s.worker) == Some(last)
    || (s.worker.Idle? && |s.saves| > 0 && s.flash == Some(s.saves[last]))
  }

  /** One of both has the lock, and the last save is covered unless something went wrong. */
  predicate Kept(s: State) {
    && !(s.worker.Locked? && !s.clearer.Resting?)
    && (s.saves != [] && !s.cleared && !s.failed ==>
          Covered(s) && (s.clearer.Emptied? ==> s.queue.Some? || Pending(s.worker) == Some(|s.saves| - 1)))
  }

  predicate Inv(s: State) { Ordered(s) && Kept(s) }

  lemma StepKeeps(s: State, step: Step)
    requires Inv(s) && Enabled(s, step)
    ensures Inv(Next(s, step))
  {
    StepOrders(s, step);
    StepCovers(s, step);
    hide Ordered, Kept, Next;
  }

  lemma StepOrders(s: State, step: Step)
    requires Ordered(s) && Enabled(s, step)
    ensures Ordered(Next(s, step))
  {
    match step {
      case Save(_) =>
      case Receive =>
      case Write(_, _) =>
      case _ =>
    }
  }

  lemma StepCovers(s: State, step: Step)
    requires Ordered(s) && Kept(s) && Enabled(s, step)
    ensures Kept(Next(s, step))
  {
    assert !s.worker.Idle? ==> s.worker.request < |s.saves|;
    hide Ordered;
    match step {
      case Save(_) =>
      case Receive =>
      case Write(_, _) =>
      case ClearErase(_, _) =>
      case _ =>
    }
  }

  predicate AtRest(s: State) { s.queue.None? && s.worker.Idle? && s.clearer.Resting? }

  /** At rest, flash holds the last save, unless a clear or a failed write came after it. */
  lemma AtRestFlashIsLastSave(s: State)
    requires Inv(s) && AtRest(s) && s.saves != [] && !s.cleared && !s.failed
    ensures s.flash == Some(s.saves[|s.saves| - 1])
  {}

  // ---- clearing ------------------------------------------------------------------------------

  /** The worker on its own, with writes that succeed. */
  function Drained(s: State): State
    requires Inv(s) && s.clearer.Resting?
    decreases if s.queue.Some? then 1 else 0, if s.worker.Got? then 2 else if s.worker.Locked? then 1 else 0
  {
    match s.worker
    case Idle => if s.queue.Some? then Drained(Next(s, Receive)) else s
    case Got(_) => Drained(Next(s, Lock))
    case Locked(_) => Drained(Next(s, Write(true, None)))
  }

  /** A save reaches flash, whatever the worker is doing, if no clear comes in between. */
  lemma SaveReachesFlash(s: State, state: Claim.Persistent)
    requires Inv(s) && s.clearer.Resting?
    ensures Enabled(s, Save(state)) && Inv(Next(s, Save(state)))
    ensures Drained(Next(s, Save(state))).flash == Some(state)
  {
    StepKeeps(s, Save(state));
    DrainedWrites(Next(s, Save(state)));
  }

  /** After a successful erase, flash stays erased if and only if at that moment no request
      waits in the queue and the worker has none in hand: otherwise the request is written
      after the erase. */
  lemma ClearWinsIffNothingPending(s: State)
    requires Inv(s) && s.clearer.Emptied?
    ensures var s1 := Next(s, ClearErase(true, None));
            Inv(s1) && (Drained(s1).flash == None <==> s.queue.None? && s.worker.Idle?)
  {
    var s1 := Next(s, ClearErase(true, None));
    if s1.queue.Some? || !s1.worker.Idle? { DrainedWrites(s1); }
  }

  lemma {:induction false} DrainedWrites(s: State)
    requires Inv(s) && s.clearer.Resting? && (s.queue.Some? || !s.worker.Idle?)
    ensures Drained(s).flash.Some?
    ensures s.queue.Some? ==> Drained(s).flash == Some(s.saves[s.queue.value])
    ensures s.queue.None? ==> Drained(s).flash == Some(s.saves[s.worker.request])
    decreases if s.queue.Some? then 1 else 0, if s.worker.Got? then 2 else if s.worker.Locked? then 1 else 0
  {
    match s.worker {
      case Idle => DrainedWrites(Next(s, Receive));
      case Got(_) => DrainedWrites(Next(s, Lock));
      case Locked(_) => if s.queue.Some? { DrainedWrites(Next(s, Write(true, None))); }
    }
  }

  function Run(steps: seq<Step>): Option<State> {
    if steps == [] then Some(START)
    else
      match Run(steps[..|steps| - 1])
      case None => None
      case Some(s) => if Enabled(s, steps[|steps| - 1]) then Some(Next(s, steps[|steps| - 1])) else None
  }

  /** In every interleaving the worker writes a subsequence of the saves, in their order. */
  lemma {:induction false} RunKeeps(steps: seq<Step>)
    ensures Run(steps).Some? ==> Inv(Run(steps).value)
  {
    if steps != [] {
      RunKeeps(steps[..|steps| - 1]);
      var before := Run(steps[..|steps| - 1]);
      if before.Some? && Enabled(before.value, steps[|steps| - 1]) {
        StepKeeps(before.value, steps[|steps| - 1]);
      }
    }
  }

  predicate Follows(s: State, step: Step, s1: State) { Enabled(s, step) && Next(s, step) == s1 }

  /** A request that the worker has taken from the queue but not locked survives a clear:
      from any state of rest, the erased state comes back. */
  lemma ClearCanLose(s: State, state: Claim.Persistent)
    requires Inv(s) && AtRest(s)
    ensures exists s1, s2, s3, s4, s5, s6, s7 ::
              && Follows(s, Save(state), s1) && Follows(s1, Receive, s2)
              && Follows(s2, ClearLock, s3) && Follows(s3, ClearQueue, s4) && Follows(s4, ClearErase(true, None), s5)
              && Follows(s5, Lock, s6) && Follows(s6, Write(true, None), s7)
              && s5.flash == None && AtRest(s7) && s7.flash == Some(state)
  {
    var n := |s.saves|;
    var s1 := s.(queue := Some(n), saves := s.saves + [state], cleared := false, failed := false);
    var s2 := s1.(queue := None, worker := Got(n));
    var s3 := s2.(clearer := Holding);
    var s4 := s3.(clearer := Emptied, cleared := true);
    var s5 := s4.(clearer := Resting, flash := None);
    var s6 := s5.(worker := Locked(n));
    var s7 := s6.(worker := Idle, flash := Some(state), writes := s.writes + [n]);
    assert Follows(s, Save(state), s1) && Follows(s1, Receive, s2);
    assert Follows(s2, ClearLock, s3) && Follows(s3, ClearQueue, s4) && Follows(s4, ClearErase(true, None), s5);
    assert Follows(s5, Lock, s6) && Follows(s6, Write(true, None), s7);
  }
}
