/** Debouncing and press classification, refining a specification over the whole trace. */
module Button {
  import opened Uhal

  datatype Config = Config(debounce: nat, shortMax: nat, commissioningMin: nat, factoryResetMin: nat)

  predicate ValidConfig(cfg: Config) {
    cfg.debounce < WRAP32 && cfg.shortMax < WRAP32 && cfg.commissioningMin < WRAP32 && cfg.factoryResetMin < WRAP32
  }

  datatype Event = Quiet | PressStarted | ShortPress | CommissioningPress | FactoryResetPress

  function Classify(cfg: Config, held: nat): Event {
    if held >= cfg.factoryResetMin then FactoryResetPress
    else if held >= cfg.commissioningMin then CommissioningPress
    else if held <= cfg.shortMax then ShortPress
    else Quiet
  }

  // ---- the specification, in true time -------------------------------------------------------

  datatype Sample = Sample(pressed: bool, at: nat)

  function Raw(trace: seq<Sample>): bool { trace != [] && trace[|trace| - 1].pressed }

  predicate Repeats(trace: seq<Sample>) {
    |trace| > 1 && trace[|trace| - 2].pressed == trace[|trace| - 1].pressed
  }

  /** When the raw level last became what it is. */
  function RunStart(trace: seq<Sample>): nat
    requires trace != []
  {
    if Repeats(trace) then RunStart(trace[..|trace| - 1]) else trace[|trace| - 1].at
  }

  /** The level is taken over once a run of equal samples spans the debounce time. */
  function Stable(cfg: Config, trace: seq<Sample>): bool {
    if trace == [] then false
    else
      var last := trace[|trace| - 1];
      if Repeats(trace) && last.at - RunStart(trace) >= cfg.debounce then last.pressed
      else Stable(cfg, trace[..|trace| - 1])
  }

  /** When the stable level last became pressed. */
  function PressAt(cfg: Config, trace: seq<Sample>): nat {
    if trace == [] then 0
    else
      var rest := trace[..|trace| - 1];
      if Stable(cfg, trace) && !Stable(cfg, rest) then trace[|trace| - 1].at else PressAt(cfg, rest)
  }

  /** What the last sample reports: nothing unless the stable level changes. */
  function Report(cfg: Config, trace: seq<Sample>): Event {
    if trace == [] then Quiet
    else
      var (last, rest) := (trace[|trace| - 1], trace[..|trace| - 1]);
      if Stable(cfg, trace) == Stable(cfg, rest) then Quiet
      else if Stable(cfg, trace) then PressStarted
      else Classify(cfg, Minus32(last.at, PressAt(cfg, rest)))
  }

  /** Samples in order, none further from the one before than the counter can tell apart. */
  predicate Timely(cfg: Config, trace: seq<Sample>) {
    forall k :: 0 < k < |trace| ==> trace[k - 1].at <= trace[k].at <= trace[k - 1].at + WRAP32 - cfg.debounce
  }

  lemma {:induction false} RunIsUniform(trace: seq<Sample>)
    requires trace != []
    ensures exists j :: 0 <= j < |trace| && trace[j].at == RunStart(trace)
                        && (Repeats(trace) ==> j < |trace| - 1)
                        && forall k :: j <= k < |trace| ==> trace[k].pressed == Raw(trace)
  {
    var n := |trace| - 1;
    if Repeats(trace) {
      RunIsUniform(trace[..n]);
      var j :| 0 <= j < n && trace[..n][j].at == RunStart(trace[..n])
               && forall k :: j <= k < n ==> trace[..n][k].pressed == Raw(trace[..n]);
      assert trace[..n][n - 1] == trace[n - 1];
      forall k | j <= k < |trace| ensures trace[k].pressed == Raw(trace) {
        if k < n { assert trace[..n][k].pressed == Raw(trace[..n]); }
      }
      assert trace[j] == trace[..n][j];
    } else {
      assert trace[n].at == RunStart(trace);
    }
  }

  /** The stable level changes only to a level the raw input has kept over samples that
      span at least the debounce time. */
  lemma ChangeNeedsSpan(cfg: Config, trace: seq<Sample>)
    requires trace != [] && Stable(cfg, trace) != Stable(cfg, trace[..|trace| - 1])
    ensures exists j :: 0 <= j < |trace| - 1 && trace[|trace| - 1].at - trace[j].at >= cfg.debounce
                        && forall k :: j <= k < |trace| ==> trace[k].pressed == Stable(cfg, trace)
  {
    RunIsUniform(trace);
  }

  /** Conversely, a level that the raw input has kept over samples that span the debounce
      time is taken over. */
  lemma {:induction false} SpanIsTaken(cfg: Config, trace: seq<Sample>, j: nat)
    requires Timely(cfg, trace) && j < |trace| - 1 && trace[|trace| - 1].at - trace[j].at >= cfg.debounce
    requires forall k :: j <= k < |trace| ==> trace[k].pressed == Raw(trace)
    ensures Stable(cfg, trace) == Raw(trace)
  {
    RunStartWithin(cfg, trace, j);
  }

  lemma {:induction false} RunStartWithin(cfg: Config, trace: seq<Sample>, j: nat)
    requires Timely(cfg, trace) && j < |trace| && forall k :: j <= k < |trace| ==> trace[k].pressed == Raw(trace)
    ensures RunStart(trace) <= trace[j].at && (j < |trace| - 1 ==> Repeats(trace))
  {
    var n := |trace| - 1;
    if j < n {
      assert trace[n - 1].pressed == Raw(trace);
      var rest := trace[..n];
      assert Raw(rest) == Raw(trace);
      forall k | j <= k < n ensures rest[k].pressed == Raw(rest) { assert rest[k] == trace[k]; }
      RunStartWithin(cfg, rest, j);
    } else if Repeats(trace) {
      RunStartsBefore(cfg, trace);
    }
  }

  /** How often the stable level was pressed, and released. */
  function Presses(cfg: Config, trace: seq<Sample>): nat {
    if trace == [] then 0
    else
      var rest := trace[..|trace| - 1];
      Presses(cfg, rest) + if Stable(cfg, trace) && !Stable(cfg, rest) then 1 else 0
  }

  function Releases(cfg: Config, trace: seq<Sample>): nat {
    if trace == [] then 0
    else
      var rest := trace[..|trace| - 1];
      Releases(cfg, rest) + if !Stable(cfg, trace) && Stable(cfg, rest) then 1 else 0
  }

  /** Presses and releases alternate, starting with a press. */
  lemma {:induction false} PressesAlternate(cfg: Config, trace: seq<Sample>)
    ensures Presses(cfg, trace) == Releases(cfg, trace) + if Stable(cfg, trace) then 1 else 0
  {
    if trace != [] { PressesAlternate(cfg, trace[..|trace| - 1]); }
  }

  /** A press is classified by its true length if and only if that is below 2^32, or its
      remainder is still long enough for a factory reset. */
  lemma HoldIsExact(cfg: Config, pressed: nat, released: nat)
    requires ValidConfig(cfg) && pressed <= released
    ensures Classify(cfg, Minus32(released, pressed)) == Classify(cfg, released - pressed) <==>
            released - pressed < WRAP32 || (released - pressed) % WRAP32 >= cfg.factoryResetMin
  {}

  // ---- the machine ---------------------------------------------------------------------------

  datatype Machine = Machine(raw: bool, stable: bool, debouncing: bool, lastChange: nat, pressStart: nat)

  const START := Machine(false, false, false, 0, 0)

  function UpdateStep(cfg: Config, m: Machine, pressed: bool, now: nat): (Event, Machine) {
    if pressed != m.raw then (Quiet, m.(raw := pressed, debouncing := true, lastChange := now))
    else if !m.debouncing || Minus32(now, m.lastChange) < cfg.debounce then (Quiet, m)
    else if m.stable == m.raw then (Quiet, m.(debouncing := false))
    else if m.raw then (PressStarted, m.(debouncing := false, stable := true, pressStart := now))
    else (Classify(cfg, Minus32(now, m.pressStart)), m.(debouncing := false, stable := false))
  }

  /** The machine knows the run and the press by their stamps. */
  predicate Linked(cfg: Config, m: Machine, trace: seq<Sample>) {
    && m.raw == Raw(trace) && m.stable == Stable(cfg, trace)
    && (!m.debouncing ==> m.stable == m.raw)
    && (m.debouncing ==>
          && trace != [] && m.lastChange == Stamp(RunStart(trace))
          && (Repeats(trace) ==> trace[|trace| - 1].at - RunStart(trace) < cfg.debounce))
    && (m.stable ==> m.pressStart == Stamp(PressAt(cfg, trace)))
  }

  lemma RunStartsBefore(cfg: Config, trace: seq<Sample>)
    requires trace != [] && Timely(cfg, trace)
    ensures RunStart(trace) <= trace[|trace| - 1].at
  {}

  /** While debouncing, the wrapped difference tells whether the run is long enough. */
  lemma ElapsedIsExact(cfg: Config, m: Machine, trace: seq<Sample>, s: Sample)
    requires ValidConfig(cfg) && Linked(cfg, m, trace) && Timely(cfg, trace + [s])
    requires m.debouncing && s.pressed == m.raw
    ensures Repeats(trace + [s]) && RunStart(trace + [s]) == RunStart(trace)
    ensures Minus32(Stamp(s.at), m.lastChange) < cfg.debounce <==> s.at - RunStart(trace) < cfg.debounce
  {
    LastGap(cfg, trace, s);
    RunStartsBefore(cfg, trace);
    RunGoesOn(trace, s);
    StampDifference(s.at, RunStart(trace));
    hide Stamp, Timely, RunStart, Stable, PressAt;
    assert cfg.debounce > 0 ==> 0 <= s.at - RunStart(trace) < WRAP32;
  }

  lemma LastGap(cfg: Config, trace: seq<Sample>, s: Sample)
    requires trace != [] && Timely(cfg, trace + [s])
    ensures Timely(cfg, trace)
    ensures trace[|trace| - 1].at <= s.at <= trace[|trace| - 1].at + WRAP32 - cfg.debounce
  {
    var next := trace + [s];
    assert next[|trace|] == s && next[|trace| - 1] == trace[|trace| - 1];
    forall k | 0 < k < |trace|
      ensures trace[k - 1].at <= trace[k].at <= trace[k - 1].at + WRAP32 - cfg.debounce
    {
      assert next[k] == trace[k] && next[k - 1] == trace[k - 1];
    }
  }

  lemma RunGoesOn(trace: seq<Sample>, s: Sample)
    requires trace != [] && s.pressed == Raw(trace)
    ensures Repeats(trace + [s]) && RunStart(trace + [s]) == RunStart(trace)
  {
    assert (trace + [s])[..|trace|] == trace;
  }

  /** Every timely sample keeps the link, and is reported as specified. */
  lemma UpdateRefines(cfg: Config, m: Machine, trace: seq<Sample>, s: Sample)
    requires ValidConfig(cfg) && Linked(cfg, m, trace) && Timely(cfg, trace + [s])
    ensures var (event, m1) := UpdateStep(cfg, m, s.pressed, Stamp(s.at));
            Linked(cfg, m1, trace + [s]) && event == Report(cfg, trace + [s])
  {
    var next := trace + [s];
    assert next[..|trace|] == trace;
    StampDifference(s.at, PressAt(cfg, trace));
    if s.pressed != m.raw {
      assert !Repeats(next);
    } else if m.debouncing {
      ElapsedIsExact(cfg, m, trace, s);
    }
    hide Timely, Stamp, Minus32, Classify;
  }

  /** The machine after a trace, and its last report. */
  function Run(cfg: Config, trace: seq<Sample>): (Event, Machine) {
    if trace == [] then (Quiet, START)
    else
      var last := trace[|trace| - 1];
      UpdateStep(cfg, Run(cfg, trace[..|trace| - 1]).1, last.pressed, Stamp(last.at))
  }

  lemma {:induction false} RunRefines(cfg: Config, trace: seq<Sample>)
    requires ValidConfig(cfg) && Timely(cfg, trace)
    ensures Linked(cfg, Run(cfg, trace).1, trace) && Run(cfg, trace).0 == Report(cfg, trace)
  {
    if trace != [] {
      var n := |trace| - 1;
      RunRefines(cfg, trace[..n]);
      assert trace[..n] + [trace[n]] == trace;
      UpdateRefines(cfg, Run(cfg, trace[..n]).1, trace[..n], trace[n]);
    }
  }

  /** What a press of a true length below 2^32 reports when the stable level is released:
      the event for the longest time that it reached. */
  lemma ReleaseIsReported(cfg: Config, trace: seq<Sample>)
    requires ValidConfig(cfg) && Timely(cfg, trace) && trace != []
    requires !Stable(cfg, trace) && Stable(cfg, trace[..|trace| - 1])
    requires 0 <= trace[|trace| - 1].at - PressAt(cfg, trace[..|trace| - 1]) < WRAP32
    ensures var held := trace[|trace| - 1].at - PressAt(cfg, trace[..|trace| - 1]);
            var event := Run(cfg, trace).0;
            && (event == FactoryResetPress <==> cfg.factoryResetMin <= held)
            && (event == CommissioningPress <==> cfg.commissioningMin <= held < cfg.factoryResetMin)
            && (event == ShortPress <==>
                  held <= cfg.shortMax && held < cfg.commissioningMin && held < cfg.factoryResetMin)
            && event != PressStarted
  {
    RunRefines(cfg, trace);
    hide Run, Stable, PressAt, Timely;
  }

  /** A press is reported when the stable level becomes pressed, and nothing while it stays. */
  lemma PressIsReported(cfg: Config, trace: seq<Sample>)
    requires ValidConfig(cfg) && Timely(cfg, trace) && trace != []
    ensures !Stable(cfg, trace[..|trace| - 1]) ==>
              Run(cfg, trace).0 == if Stable(cfg, trace) then PressStarted else Quiet
    ensures Stable(cfg, trace[..|trace| - 1]) && Stable(cfg, trace) ==> Run(cfg, trace).0 == Quiet
  {
    RunRefines(cfg, trace);
    hide Run, Stable, PressAt, Timely, Classify;
  }

  /** One millisecond beyond the allowed gap a press can go unnoticed. */
  lemma GapBoundIsTight(cfg: Config)
    requires ValidConfig(cfg) && cfg.debounce > 0
    ensures var trace := [Sample(true, 0), Sample(true, cfg.debounce - 1), Sample(true, WRAP32)];
            && trace[2].at - trace[1].at == WRAP32 - cfg.debounce + 1
            && Run(cfg, trace).0 == Quiet && Report(cfg, trace) == PressStarted
  {
    var (a, b, c) := (Sample(true, 0), Sample(true, cfg.debounce - 1), Sample(true, WRAP32));
    var (one, two, three) := ([a], [a, b], [a, b, c]);
    assert one[..0] == [] && two[..1] == one && three[..2] == two;
    assert Run(cfg, one).1 == Machine(true, false, true, 0, 0);
    assert Stamp(b.at) == b.at && Minus32(b.at, 0) == b.at;
    assert Run(cfg, two).1 == Machine(true, false, true, 0, 0);
    assert Stamp(WRAP32) == 0;
    assert RunStart(one) == 0 && RunStart(two) == 0 && RunStart(three) == 0;
    assert !Stable(cfg, one) && !Stable(cfg, two);
  }

  // ---- the button object ------------------------------------------------------------------------

  class ButtonInput {
    const config: Config
    var rawLast: bool
    var stablePressed: bool
    var debouncing: bool
    var lastChange: nat
    var pressStart: nat
    ghost var trace: seq<Sample>

    ghost function Model(): Machine
      reads this
    {
      Machine(rawLast, stablePressed, debouncing, lastChange, pressStart)
    }

    ghost predicate Valid()
      reads this
    {
      ValidConfig(config) && Model() == Run(config, trace).1
    }

    constructor (config: Config)
      requires ValidConfig(config)
      ensures Valid() && trace == [] && this.config == config
    {
      this.config := config;
      rawLast, stablePressed, debouncing, lastChange, pressStart, trace := false, false, false, 0, 0, [];
    }

    method Update(rawPressed: bool, ghost t: nat, now: nat) returns (event: Event)
      requires Valid() && now == Stamp(t)
      modifies this
      ensures Valid() && trace == old(trace) + [Sample(rawPressed, t)]
      ensures event == Run(config, trace).0
      ensures Timely(config, trace) ==> event == Report(config, trace) && stablePressed == Stable(config, trace)
    {
      trace := trace + [Sample(rawPressed, t)];
      assert trace[..|trace| - 1] == old(trace);
      if Timely(config, trace) { RunRefines(config, trace); }
      hide Run, Timely, Stable, Report;
      event := Step(rawPressed, now);
    }

    method Step(rawPressed: bool, now: nat) returns (event: Event)
      modifies this`rawLast, this`stablePressed, this`debouncing, this`lastChange, this`pressStart
      ensures (event, Model()) == UpdateStep(config, old(Model()), rawPressed, now)
    {
      if rawPressed != rawLast {
        rawLast, debouncing, lastChange := rawPressed, true, now;
        return Quiet;
      }
      if !debouncing || Minus32(now, lastChange) < config.debounce { return Quiet; }
      debouncing := false;
      if stablePressed == rawLast { return Quiet; }
      stablePressed := rawLast;
      if stablePressed {
        pressStart := now;
        return PressStarted;
      }
      var held := Minus32(now, pressStart);
      if held >= config.factoryResetMin { return FactoryResetPress; }
      if held >= config.commissioningMin { return CommissioningPress; }
      return if held <= config.shortMax then ShortPress else Quiet;
    }

    /** How long the button has been held, modulo the counter. */
    method HoldTime(ghost t: nat, now: nat) returns (held: nat)
      requires Valid() && now == Stamp(t)
      ensures Timely(config, trace) ==>
                held == if Stable(config, trace) then (t - PressAt(config, trace)) % WRAP32 else 0
    {
      if Timely(config, trace) { RunRefines(config, trace); }
      StampDifference(t, PressAt(config, trace));
      held := if stablePressed then Minus32(now, pressStart) else 0;
    }
  }
}
