/** The relay's owner and the application around it: when the state changes, what is
    driven, saved and told to the observer. */
module Switch {
  import opened Uhal

  /** What the relay service does to its ports. */
  datatype Effect =
    | DriveLoad(on: bool, status: Status)
    | DriveIndicator(on: bool, status: Status)
    | SaveState(on: bool, status: Status)

  /** How the ports answer during one call. */
  datatype Answers = Answers(load: Status, indicator: Status, save: Status)

  function Applied(on: bool, a: Answers): seq<Effect> { [DriveLoad(on, a.load), DriveIndicator(on, a.indicator)] }

  predicate ApplyWorks(a: Answers) { a.load.Ok? && a.indicator.Ok? }

  /** Both outputs are driven whatever the first one answers; only an applied state is saved. */
  function SetEffects(on: bool, a: Answers): seq<Effect> {
    Applied(on, a) + if ApplyWorks(a) then [SaveState(on, a.save)] else []
  }

  function SetStatus(a: Answers): Status { if ApplyWorks(a) then a.save else IoError }

  class BinarySwitchService {
    var on: bool
    var effects: seq<Effect>

    constructor ()
      ensures !on && effects == []
    {
      on, effects := false, [];
    }

    method Apply(a: Answers) returns (status: Status)
      modifies this`effects
      ensures effects == old(effects) + Applied(on, a) && status == if ApplyWorks(a) then Ok else IoError
    {
      effects := effects + [DriveLoad(on, a.load)];
      effects := effects + [DriveIndicator(on, a.indicator)];
      status := if a.load.Ok? && a.indicator.Ok? then Ok else IoError;
    }

    /** The stored state, or off. */
    method Restore(stored: Result<bool>, a: Answers) returns (status: Status)
      modifies this
      ensures on == (stored.Success? && stored.value)
      ensures effects == old(effects) + Applied(on, a) && status == if ApplyWorks(a) then Ok else IoError
    {
      on := stored.Success? && stored.value;
      status := Apply(a);
    }

    /** The state changes even if it cannot be applied or saved. */
    method Set(value: bool, a: Answers) returns (status: Status)
      modifies this
      ensures on == value && effects == old(effects) + SetEffects(value, a) && status == SetStatus(a)
    {
      on := value;
      status := Apply(a);
      if !status.Ok? { return; }
      effects := effects + [SaveState(on, a.save)];
      status := a.save;
    }

    method Toggle(a: Answers) returns (status: Status)
      modifies this
      ensures on == !old(on) && effects == old(effects) + SetEffects(on, a) && status == SetStatus(a)
    {
      status := Set(!on, a);
    }
  }

  class SmartDeviceApplication {
    const service: BinarySwitchService
    const observed: bool
    /** What the observer, if there is one, was told. */
    var notified: seq<bool>

    constructor (service: BinarySwitchService, observed: bool)
      ensures this.service == service && this.observed == observed && notified == []
    {
      this.service, this.observed, notified := service, observed, [];
    }

    method Initialize(stored: Result<bool>, a: Answers) returns (status: Status)
      modifies this, service
      ensures service.on == (stored.Success? && stored.value) && status == if ApplyWorks(a) then Ok else IoError
      ensures service.effects == old(service.effects) + Applied(service.on, a)
      ensures notified == old(notified) + if status.Ok? && observed then [service.on] else []
    {
      status := service.Restore(stored, a);
      if status.Ok? && observed { notified := notified + [service.on]; }
    }

    method OnShortPress(a: Answers) returns (status: Status)
      modifies this, service
      ensures (service.on, notified) == Heard(observed, old(service.on), old(notified), Press)
      ensures service.effects == old(service.effects) + Worked(old(service.on), Press, a) && status == SetStatus(a)
    {
      var previous := service.on;
      status := service.Toggle(a);
      NotifyIfChanged(previous);
    }

    /** Nothing at all happens if the relay already is in that state. */
    method SetSwitch(value: bool, a: Answers) returns (status: Status)
      modifies this, service
      ensures (service.on, notified) == Heard(observed, old(service.on), old(notified), SetTo(value))
      ensures service.effects == old(service.effects) + Worked(old(service.on), SetTo(value), a)
      ensures status == if old(service.on) == value then Ok else SetStatus(a)
    {
      var previous := service.on;
      if previous == value { return Ok; }
      status := service.Set(value, a);
      NotifyIfChanged(previous);
    }

    method NotifyIfChanged(previous: bool)
      modifies this
      ensures notified == if observed && service.on != previous then old(notified) + [service.on] else old(notified)
    {
      var current := service.on;
      if observed && current != previous { notified := notified + [current]; }
    }
  }

  // ---- what the observer learns --------------------------------------------------------------

  datatype Command = Press | SetTo(on: bool)

  /** The state and the notifications after one command, whatever the ports answer. */
  function Commanded(on: bool, notified: seq<bool>, c: Command): (bool, seq<bool>) {
    match c
    case Press => (!on, notified + [!on])
    case SetTo(value) => (value, if on == value then notified else notified + [value])
  }

  /** The same, with or without an observer. */
  function Heard(observed: bool, on: bool, notified: seq<bool>, c: Command): (bool, seq<bool>) {
    var (on1, notified1) := Commanded(on, notified, c);
    (on1, if observed then notified1 else notified)
  }

  function After(on: bool, notified: seq<bool>, commands: seq<Command>): (bool, seq<bool>)
    decreases |commands|
  {
    if commands == [] then (on, notified)
    else
      var (on1, notified1) := Commanded(on, notified, commands[0]);
      After(on1, notified1, commands[1..])
  }

  predicate Alternates(s: seq<bool>) { forall i :: 0 < i < |s| ==> s[i] != s[i - 1] }

  /** From the first notification on, the observer hears every change and nothing else: the
      notifications alternate, the last one is the state, and no failure breaks this. */
  lemma {:induction false} ObserverIsExact(on: bool, notified: seq<bool>, commands: seq<Command>)
    requires Alternates(notified) && notified != [] && notified[|notified| - 1] == on
    ensures var (on1, notified1) := After(on, notified, commands);
            && notified <= notified1 && Alternates(notified1)
            && notified1[|notified1| - 1] == on1
    decreases |commands|
  {
    if commands != [] {
      var (on1, notified1) := Commanded(on, notified, commands[0]);
      ObserverIsExact(on1, notified1, commands[1..]);
    }
  }

  // ---- what the outputs and the store end up with ----------------------------------------------

  /** What one command does to the ports. */
  function Worked(on: bool, c: Command, a: Answers): seq<Effect> {
    match c
    case Press => SetEffects(!on, a)
    case SetTo(value) => if on == value then [] else SetEffects(value, a)
  }

  /** A command, and how the ports answer during it. */
  datatype Call = Call(command: Command, answers: Answers)

  /** The relay's state and everything done to the ports. */
  function RunCalls(on: bool, effects: seq<Effect>, calls: seq<Call>): (bool, seq<Effect>)
    decreases |calls|
  {
    if calls == [] then (on, effects)
    else
      var (c, a) := (calls[0].command, calls[0].answers);
      RunCalls(Commanded(on, [], c).0, effects + Worked(on, c, a), calls[1..])
  }

  /** The value the load was last driven to, and what the store holds, as the ports saw it. */
  function Load(effects: seq<Effect>, first: bool): bool {
    if effects == [] then first
    else
      match effects[|effects| - 1]
      case DriveLoad(on, _) => on
      case _ => Load(effects[..|effects| - 1], first)
  }

  function Indicator(effects: seq<Effect>, first: bool): bool {
    if effects == [] then first
    else
      match effects[|effects| - 1]
      case DriveIndicator(on, _) => on
      case _ => Indicator(effects[..|effects| - 1], first)
  }

  function Stored(effects: seq<Effect>, first: bool): bool {
    if effects == [] then first
    else
      match effects[|effects| - 1]
      case SaveState(on, status) => if status.Ok? then on else Stored(effects[..|effects| - 1], first)
      case _ => Stored(effects[..|effects| - 1], first)
  }

  lemma EffectAfter(effects: seq<Effect>, e: Effect, first: bool)
    ensures Load(effects + [e], first) == if e.DriveLoad? then e.on else Load(effects, first)
    ensures Indicator(effects + [e], first) == if e.DriveIndicator? then e.on else Indicator(effects, first)
    ensures Stored(effects + [e], first) == if e.SaveState? && e.status.Ok? then e.on else Stored(effects, first)
  {
    assert (effects + [e])[..|effects|] == effects;
  }

  lemma SetAfter(effects: seq<Effect>, on: bool, a: Answers, first: bool)
    ensures var all := effects + SetEffects(on, a);
            && Load(all, first) == on && Indicator(all, first) == on
            && Stored(all, first) ==
                 if a.load.Ok? && a.indicator.Ok? && a.save.Ok? then on else Stored(effects, first)
  {
    var (e1, e2, e3) := (DriveLoad(on, a.load), DriveIndicator(on, a.indicator), SaveState(on, a.save));
    EffectAfter(effects, e1, first);
    EffectAfter(effects + [e1], e2, first);
    EffectAfter(effects + [e1] + [e2], e3, first);
    assert effects + Applied(on, a) == effects + [e1] + [e2];
    assert effects + (Applied(on, a) + [e3]) == effects + [e1] + [e2] + [e3];
    assert Applied(on, a) + [] == Applied(on, a);
    hide Load, Indicator, Stored;
  }

  predicate Works(c: Call) { c.answers.load.Ok? && c.answers.indicator.Ok? && c.answers.save.Ok? }

  /** Whatever fails, both outputs were last driven to the relay's state; and if the ports of
      all calls answer ok, the store holds that state too. */
  lemma {:induction false} OutputsFollow(on: bool, effects: seq<Effect>, calls: seq<Call>, first: bool)
    requires Load(effects, first) == on && Indicator(effects, first) == on
    ensures var (on1, effects1) := RunCalls(on, effects, calls);
            && Load(effects1, first) == on1 && Indicator(effects1, first) == on1
            && (Stored(effects, first) == on && (forall c :: c in calls ==> Works(c)) ==> Stored(effects1, first) == on1)
    decreases |calls|
  {
    hide Load, Indicator, Stored, SetEffects;
    if calls != [] {
      var (c, a) := (calls[0].command, calls[0].answers);
      var on1 := Commanded(on, [], c).0;
      SetAfter(effects, on1, a, first);
      assert effects + [] == effects;
      assert calls[0] in calls;
      OutputsFollow(on1, effects + Worked(on, c, a), calls[1..], first);
    }
  }

  /** A life of the device and the start of the next one: if the ports answer ok, a service
      that restores from what the store then holds comes up in the state that the commands
      led to, with both outputs driven to it. */
  method PowerCycle(stored: bool, a: Answers, calls: seq<Call>, b: Answers) returns (next: BinarySwitchService)
    requires forall c :: c in calls ==> Works(c)
    ensures fresh(next) && next.on == RunCalls(stored, Applied(stored, a), calls).0
    ensures Load(next.effects, !next.on) == next.on && Indicator(next.effects, !next.on) == next.on
  {
    var service := new BinarySwitchService();
    var application := new SmartDeviceApplication(service, true);
    var status := application.Initialize(Success(stored), a);
    AppliedAfter([], stored, a, stored);
    assert [] + Applied(stored, a) == Applied(stored, a);
    OutputsFollow(stored, Applied(stored, a), calls, stored);
    hide Load, Indicator, Stored, Worked;
    assert calls[0..] == calls;
    for i := 0 to |calls|
      invariant RunCalls(stored, Applied(stored, a), calls) == RunCalls(service.on, service.effects, calls[i..])
    {
      match calls[i].command {
        case Press => status := application.OnShortPress(calls[i].answers);
        case SetTo(value) => status := application.SetSwitch(value, calls[i].answers);
      }
      assert calls[i..][1..] == calls[i + 1..];
    }
    next := new BinarySwitchService();
    status := next.Restore(Success(Stored(service.effects, stored)), b);
    AppliedAfter([], next.on, b, !next.on);
    assert [] + Applied(next.on, b) == Applied(next.on, b);
  }

  lemma AppliedAfter(effects: seq<Effect>, on: bool, a: Answers, first: bool)
    ensures var all := effects + Applied(on, a);
            Load(all, first) == on && Indicator(all, first) == on && Stored(all, first) == Stored(effects, first)
  {
    var (e1, e2) := (DriveLoad(on, a.load), DriveIndicator(on, a.indicator));
    EffectAfter(effects, e1, first);
    EffectAfter(effects + [e1], e2, first);
    assert effects + Applied(on, a) == effects + [e1] + [e2];
    hide Load, Indicator, Stored;
  }
}
