/** Adaptive bitrate: slow start, additive increase, multiplicative decrease, and the
    layer that coalesces growth so that few changes reach the encoder. Factors are the
    shipped 3/4, 7/5 and 3/20, rounded down; times are instants of one clock. */
module Bitrate {
  import opened Numbers
  import opened Options

  datatype Phase = SlowStart | CongestionAvoidance

  datatype Event = SendBacklog | ArrivalStall | Latency(ms: real) | Timer

  datatype Config = Config(min: nat, max: nat, initial: nat, cooldown: nat, additive: nat, latencyCeiling: real)

  const CORROBORATION_WINDOW: nat := 5_000_000_000

  datatype Algo = Algo(cfg: Config, current: nat, ssthresh: nat, phase: Phase,
                       lastDecrease: Option<nat>, lastLatency: Option<real>, lastBacklog: Option<nat>)

  /** The controller: the algorithm's target, the rate last pushed to the encoder and
      every rate pushed so far. */
  datatype Control = Control(algo: Algo, applied: nat, pushes: seq<nat>)

  /** Instants never run backwards; an earlier one counts as no time passed. */
  function Since(now: nat, earlier: nat): nat { if now < earlier then 0 else now - earlier }

  // ---------------------------------------------------------------- the algorithm

  function NewAlgo(cfg: Config): Algo {
    Algo(cfg, cfg.initial, cfg.max, SlowStart, None, None, None)
  }

  predicate InCooldown(a: Algo, now: nat) {
    a.lastDecrease.Some? && Since(now, a.lastDecrease.value) < a.cfg.cooldown
  }

  function CutRate(a: Algo): nat { Max(a.current * 3 / 4, a.cfg.min) }

  function Cut(a: Algo, now: nat): Algo {
    if InCooldown(a, now) then a
    else a.(current := CutRate(a), ssthresh := CutRate(a), phase := CongestionAvoidance, lastDecrease := Some(now))
  }

  predicate Corroborated(a: Algo, now: nat) {
    a.lastBacklog.Some? && Since(now, a.lastBacklog.value) < CORROBORATION_WINDOW
  }

  predicate HoldsOff(a: Algo, now: nat) {
    InCooldown(a, now) || (a.lastLatency.Some? && a.lastLatency.value > a.cfg.latencyCeiling)
  }

  function GrownRate(a: Algo): nat {
    Min(if a.phase.SlowStart? then Min(a.current * 7 / 5, a.ssthresh) else a.current + a.cfg.additive, a.cfg.max)
  }

  function Grow(a: Algo, now: nat): Algo {
    if HoldsOff(a, now) then a
    else a.(current := GrownRate(a),
            phase := if a.phase.SlowStart? && GrownRate(a) >= a.ssthresh then CongestionAvoidance else a.phase)
  }

  function React(a: Algo, now: nat, e: Event): Algo {
    match e
    case SendBacklog => Cut(a.(lastBacklog := Some(now)), now)
    case ArrivalStall => if Corroborated(a, now) then Cut(a, now) else a
    case Latency(ms) => a.(lastLatency := Some(ms))
    case Timer => Grow(a, now)
  }

  // ---------------------------------------------------------------- coalescing

  /** The coalescing band above an applied rate. */
  function Band(applied: nat): nat { Max(applied * 3 / 20, 1) }

  predicate ShouldActuate(target: nat, applied: nat, max: nat) {
    target <= applied || target >= max || target - applied >= Band(applied)
  }

  function Handle(c: Control, now: nat, e: Event): Control {
    var a := React(c.algo, now, e);
    if a.current != c.algo.current && ShouldActuate(a.current, c.applied, a.cfg.max)
    then Control(a, a.current, c.pushes + [a.current])
    else c.(algo := a)
  }

  // ---------------------------------------------------------------- invariant

  predicate ConfigOk(cfg: Config) { cfg.min <= cfg.initial <= cfg.max }

  predicate AlgoInv(a: Algo) {
    && a.cfg.min <= a.current <= a.cfg.max
    && (a.phase.SlowStart? ==> a.ssthresh == a.cfg.max && a.lastDecrease == None)
  }

  /** The applied rate trails the target by less than one band and meets it at the
      ceiling. */
  predicate ControlInv(c: Control) {
    && AlgoInv(c.algo)
    && c.algo.cfg.min <= c.applied <= c.algo.current
    && c.algo.current - c.applied < Band(c.applied)
    && (c.algo.current == c.algo.cfg.max ==> c.applied == c.algo.cfg.max)
  }

  /** Three quarters of anything inside the band is at most the applied rate. */
  lemma CutsGoBelowApplied(target: nat, applied: nat)
    requires applied <= target && target - applied < Band(applied)
    ensures target * 3 / 4 <= applied
  {
  }

  /** Every reaction keeps the target between floor and ceiling; lowered, it is at most
      three quarters of the old one, or the floor. */
  lemma ReactInv(a: Algo, now: nat, e: Event)
    requires AlgoInv(a)
    ensures var b := React(a, now, e);
            AlgoInv(b) && b.cfg == a.cfg && (b.current < a.current ==> b.current == Max(a.current * 3 / 4, a.cfg.min))
  {
  }

  lemma HandleInv(c: Control, now: nat, e: Event)
    requires ControlInv(c)
    ensures ControlInv(Handle(c, now, e)) && Handle(c, now, e).algo.cfg == c.algo.cfg
  {
    ReactInv(c.algo, now, e);
    CutsGoBelowApplied(c.algo.current, c.applied);
    hide React;
  }

  /** A cut is never coalesced, even when the target had drifted above the applied
      rate: the lower target is pushed at once. */
  lemma CutsReachTheEncoder(c: Control, now: nat, e: Event)
    requires ControlInv(c) && React(c.algo, now, e).current < c.algo.current
    ensures var d := Handle(c, now, e);
            d.applied == d.algo.current <= c.applied && d.pushes == c.pushes + [d.algo.current]
  {
    CutsGoBelowApplied(c.algo.current, c.applied);
  }

  // ---------------------------------------------------------------- runs

  /** Controller states along a sequence of timed events. */
  ghost predicate Run(cfg: Config, states: seq<Control>, events: seq<(nat, Event)>) {
    && ConfigOk(cfg) && |states| == |events| + 1
    && states[0] == Control(NewAlgo(cfg), cfg.initial, [])
    && (forall i | 0 <= i < |events| :: states[i + 1] == Handle(states[i], events[i].0, events[i].1))
    && (forall i, j | 0 <= i <= j < |events| :: events[i].0 <= events[j].0)
  }

  predicate Decreases(states: seq<Control>, i: nat)
    requires i + 1 < |states|
  {
    states[i + 1].algo.current < states[i].algo.current
  }

  predicate Increases(states: seq<Control>, i: nat)
    requires i + 1 < |states|
  {
    states[i + 1].algo.current > states[i].algo.current
  }

  lemma {:induction false} RunInv(cfg: Config, states: seq<Control>, events: seq<(nat, Event)>, i: nat)
    requires Run(cfg, states, events) && i <= |events|
    ensures ControlInv(states[i]) && states[i].algo.cfg == cfg && |states| == |events| + 1
  {
    hide Handle, React, ControlInv;
    if i == 0 {
      StartIsSoundIffBetween(cfg);
    } else {
      RunInv(cfg, states, events, i - 1);
      HandleInv(states[i - 1], events[i - 1].0, events[i - 1].1);
    }
  }

  /** One turn of a run. */
  lemma StepIs(cfg: Config, states: seq<Control>, events: seq<(nat, Event)>, i: nat)
    requires Run(cfg, states, events) && i < |events|
    ensures states[i + 1] == Handle(states[i], events[i].0, events[i].1)
    ensures states[i + 1].algo == React(states[i].algo, events[i].0, events[i].1)
  {
  }

  /** A turn forgets no cut, and records the one it makes. */
  lemma CutIsRecorded(a: Algo, now: nat, e: Event)
    requires AlgoInv(a)
    ensures var b := React(a, now, e);
            && (b.lastDecrease == a.lastDecrease || b.lastDecrease == Some(now))
            && (b.current < a.current ==> b.lastDecrease == Some(now))
  {
  }

  lemma InOrder(cfg: Config, states: seq<Control>, events: seq<(nat, Event)>, i: nat, j: nat)
    requires Run(cfg, states, events) && i <= j < |events|
    ensures events[i].0 <= events[j].0
  {
    hide Handle;
  }

  /** Once the rate went down at turn `i`, the recorded cut is never older. */
  lemma {:induction false} CutIsRemembered(cfg: Config, states: seq<Control>, events: seq<(nat, Event)>, i: nat, j: nat)
    requires Run(cfg, states, events) && i < j <= |events| && Decreases(states, i)
    ensures states[j].algo.lastDecrease.Some? && states[j].algo.lastDecrease.value >= events[i].0
  {
    hide Run, React, Handle, AlgoInv, Band;
    InOrder(cfg, states, events, i, j - 1);
    RunInv(cfg, states, events, j - 1);
    StepIs(cfg, states, events, j - 1);
    CutIsRecorded(states[j - 1].algo, events[j - 1].0, events[j - 1].1);
    if j > i + 1 {
      CutIsRemembered(cfg, states, events, i, j - 1);
    }
  }

  lemma GrowthOnlyGrows(a: Algo, now: nat)
    requires AlgoInv(a)
    ensures a.current <= Grow(a, now).current <= a.cfg.max
  {
  }

  /** Rate decreases are at least a cooldown apart, and no growth falls inside one. */
  lemma ChangesRespectCooldown(cfg: Config, states: seq<Control>, events: seq<(nat, Event)>, i: nat, j: nat)
    requires Run(cfg, states, events) && i < j < |events|
    requires Decreases(states, i) && (Decreases(states, j) || Increases(states, j))
    ensures events[j].0 - events[i].0 >= cfg.cooldown
  {
    CutIsRemembered(cfg, states, events, i, j);
    RunInv(cfg, states, events, j);
    assert !InCooldown(states[j].algo, events[j].0);
    assert events[i].0 <= events[j].0;
  }

  /** The backlog the algorithm remembers really happened. */
  lemma {:induction false} BacklogHappened(cfg: Config, states: seq<Control>, events: seq<(nat, Event)>, j: nat)
    requires Run(cfg, states, events) && j <= |events| && states[j].algo.lastBacklog.Some?
    ensures exists i :: 0 <= i < j && events[i] == (states[j].algo.lastBacklog.value, SendBacklog)
  {
    if events[j - 1].1 == SendBacklog {
      assert events[j - 1] == (states[j].algo.lastBacklog.value, SendBacklog);
    } else {
      BacklogHappened(cfg, states, events, j - 1);
    }
  }

  /** Every decrease has a server-side backlog at that moment or less than five seconds
      before; client bursts alone never cut. */
  lemma DecreasesNeedBacklog(cfg: Config, states: seq<Control>, events: seq<(nat, Event)>, j: nat)
    requires Run(cfg, states, events) && j < |events| && Decreases(states, j)
    ensures exists i :: 0 <= i <= j && events[i].1 == SendBacklog && events[j].0 - events[i].0 < CORROBORATION_WINDOW
  {
    RunInv(cfg, states, events, j);
    GrowthOnlyGrows(states[j].algo, events[j].0);
    if events[j].1 != SendBacklog {
      assert Corroborated(states[j].algo, events[j].0);
      BacklogHappened(cfg, states, events, j);
      var i :| 0 <= i < j && events[i] == (states[j].algo.lastBacklog.value, SendBacklog);
      assert events[i].0 <= events[j].0;
    }
  }

  /** Without any backlog the rate never goes down. */
  lemma {:induction false} NoBacklogNoDecrease(cfg: Config, states: seq<Control>, events: seq<(nat, Event)>, i: nat, j: nat)
    requires Run(cfg, states, events) && i <= j <= |events|
    requires forall k | 0 <= k < |events| :: events[k].1 != SendBacklog
    ensures states[i].algo.current <= states[j].algo.current && states[i].applied <= states[j].applied
  {
    hide Run, React, ControlInv;
    RunInv(cfg, states, events, j);
    if i < j {
      NoBacklogNoDecrease(cfg, states, events, i, j - 1);
      if Decreases(states, j - 1) {
        DecreasesNeedBacklog(cfg, states, events, j - 1);
      }
      RunInv(cfg, states, events, j - 1);
      StepIs(cfg, states, events, j - 1);
      AppliedNeverFalls(states[j - 1], events[j - 1].0, events[j - 1].1);
    }
  }

  lemma AppliedNeverFalls(c: Control, now: nat, e: Event)
    requires ControlInv(c) && React(c.algo, now, e).current >= c.algo.current
    ensures Handle(c, now, e).applied >= c.applied
  {
  }

  /** Slow start is never re-entered. */
  lemma {:induction false} SlowStartIsOver(cfg: Config, states: seq<Control>, events: seq<(nat, Event)>, i: nat, j: nat)
    requires Run(cfg, states, events) && i <= j <= |events| && states[i].algo.phase.CongestionAvoidance?
    ensures states[j].algo.phase.CongestionAvoidance?
  {
    if i < j {
      SlowStartIsOver(cfg, states, events, i, j - 1);
    }
  }

  // ---------------------------------------------------------------- what events do

  /** The last latency and the last backlog reported before turn `j`. */
  function LatestLatency(events: seq<(nat, Event)>, j: nat): Option<real>
    requires j <= |events|
  {
    if j == 0 then None
    else if events[j - 1].1.Latency? then Some(events[j - 1].1.ms) else LatestLatency(events, j - 1)
  }

  function LatestBacklog(events: seq<(nat, Event)>, j: nat): Option<nat>
    requires j <= |events|
  {
    if j == 0 then None
    else if events[j - 1].1.SendBacklog? then Some(events[j - 1].0) else LatestBacklog(events, j - 1)
  }

  predicate Congests(e: Event) { e.SendBacklog? || e.ArrivalStall? }

  /** No sign of congestion before turn `j` is younger than a cooldown. */
  ghost predicate CooledDown(cfg: Config, events: seq<(nat, Event)>, j: nat)
    requires j < |events|
  {
    forall m | 0 <= m < j && Congests(events[m].1) :: events[j].0 - events[m].0 >= cfg.cooldown
  }

  /** The algorithm remembers the last latency and the last backlog, and a cut only if
      there was congestion. */
  lemma {:induction false} Remembers(cfg: Config, states: seq<Control>, events: seq<(nat, Event)>, j: nat)
    requires Run(cfg, states, events) && j <= |events|
    ensures states[j].algo.lastLatency == LatestLatency(events, j)
    ensures states[j].algo.lastBacklog == LatestBacklog(events, j)
    ensures states[j].algo.lastDecrease.Some? ==>
              exists m :: 0 <= m < j && Congests(events[m].1) && events[m].0 == states[j].algo.lastDecrease.value
  {
    hide Run, Handle, HoldsOff, GrownRate, CutRate, InCooldown, Corroborated;
    Begins(cfg, states, events);
    if j > 0 {
      StepIs(cfg, states, events, j - 1);
      Remembers(cfg, states, events, j - 1);
      var a, b := states[j - 1].algo, states[j].algo;
      if b.lastDecrease != a.lastDecrease {
        assert Congests(events[j - 1].1) && events[j - 1].0 == b.lastDecrease.value;
      }
    }
  }

  lemma NotInCooldown(cfg: Config, states: seq<Control>, events: seq<(nat, Event)>, j: nat)
    requires Run(cfg, states, events) && j < |events| && CooledDown(cfg, events, j)
    ensures !InCooldown(states[j].algo, events[j].0) && states[j].algo.cfg == cfg
  {
    hide Handle, React, ControlInv;
    RunInv(cfg, states, events, j);
    Remembers(cfg, states, events, j);
    if states[j].algo.lastDecrease.Some? {
      var m :| 0 <= m < j && Congests(events[m].1) && events[m].0 == states[j].algo.lastDecrease.value;
      assert events[j].0 - events[m].0 >= cfg.cooldown;
    }
  }

  /** A cut takes a quarter off the target, down to the floor, and the encoder is told. */
  predicate IsCut(cfg: Config, c: Control, d: Control) {
    && d.algo.current == Max(c.algo.current * 3 / 4, cfg.min)
    && (d.algo.current != c.algo.current ==> d.applied == d.algo.current && d.pushes == c.pushes + [d.algo.current])
  }

  /** A backlog cuts the rate, unless there was congestion less than a cooldown ago. */
  lemma BacklogCuts(cfg: Config, states: seq<Control>, events: seq<(nat, Event)>, j: nat)
    requires Run(cfg, states, events) && j < |events| && CooledDown(cfg, events, j) && events[j].1.SendBacklog?
    ensures IsCut(cfg, states[j], states[j + 1])
  {
    NotInCooldown(cfg, states, events, j);
    RunInv(cfg, states, events, j);
    CutsGoBelowApplied(states[j].algo.current, states[j].applied);
  }

  /** So does an arrival stall, exactly if the last backlog is less than five seconds old;
      otherwise nothing happens. */
  lemma StallCutsIffCorroborated(cfg: Config, states: seq<Control>, events: seq<(nat, Event)>, j: nat)
    requires Run(cfg, states, events) && j < |events| && CooledDown(cfg, events, j) && events[j].1.ArrivalStall?
    ensures var backlog := LatestBacklog(events, j);
            if backlog.Some? && events[j].0 - backlog.value < 5_000_000_000 then IsCut(cfg, states[j], states[j + 1])
            else states[j + 1] == states[j]
  {
    NotInCooldown(cfg, states, events, j);
    Remembers(cfg, states, events, j);
    RunInv(cfg, states, events, j);
    CutsGoBelowApplied(states[j].algo.current, states[j].applied);
    if LatestBacklog(events, j).Some? {
      BacklogHappened(cfg, states, events, j);
      var i :| 0 <= i < j && events[i] == (states[j].algo.lastBacklog.value, SendBacklog);
      assert events[i].0 <= events[j].0;
    }
  }

  /** While the last latency reported is above its ceiling, no timer tick changes
      anything. */
  lemma LatencyHoldsGrowth(cfg: Config, states: seq<Control>, events: seq<(nat, Event)>, j: nat)
    requires Run(cfg, states, events) && j < |events| && events[j].1.Timer?
    requires LatestLatency(events, j).Some? && LatestLatency(events, j).value > cfg.latencyCeiling
    ensures states[j + 1] == states[j]
  {
    Remembers(cfg, states, events, j);
    RunInv(cfg, states, events, j);
  }

  // ---------------------------------------------------------------- growth

  /** A timer tick held back neither by a cooldown nor by latency. */
  predicate GrowsAt(states: seq<Control>, events: seq<(nat, Event)>, k: nat)
    requires k < |events| && k < |states|
  {
    events[k].1.Timer? && !HoldsOff(states[k].algo, events[k].0)
  }

  /** Such ticks among turns `[i, j)`. */
  function Growths(states: seq<Control>, events: seq<(nat, Event)>, i: nat, j: nat): nat
    requires i <= j <= |events| && |events| < |states|
  {
    if i == j then 0 else Growths(states, events, i, j - 1) + if GrowsAt(states, events, j - 1) then 1 else 0
  }

  /** A tick is one of them if congestion is a cooldown away and latency, if reported,
      not above its ceiling. */
  lemma QuietTicksGrow(cfg: Config, states: seq<Control>, events: seq<(nat, Event)>, j: nat)
    requires Run(cfg, states, events) && j < |events| && events[j].1.Timer? && CooledDown(cfg, events, j)
    requires LatestLatency(events, j).Some? ==> LatestLatency(events, j).value <= cfg.latencyCeiling
    ensures GrowsAt(states, events, j)
  {
    hide Run, Handle;
    NotInCooldown(cfg, states, events, j);
    Remembers(cfg, states, events, j);
  }

  lemma AvoidanceTurn(a: Algo, now: nat, e: Event)
    requires AlgoInv(a) && a.phase.CongestionAvoidance? && React(a, now, e).current >= a.current
    ensures React(a, now, e).phase.CongestionAvoidance?
    ensures React(a, now, e).current ==
            if e.Timer? && !HoldsOff(a, now) then Min(a.current + a.cfg.additive, a.cfg.max) else a.current
  {
  }

  lemma MoreTimes(m: nat, n: nat, d: nat)
    requires m <= n
    ensures m * d <= n * d
  {
  }

  lemma OneTimeMore(n: nat, d: nat)
    ensures (n + 1) * d == n * d + d && n * d >= 0
  {
  }

  /** In congestion avoidance the target rises by exactly the additive increase per such
      tick, up to the ceiling, as long as nothing lowers it. */
  lemma {:induction false} AvoidanceIsLinear(cfg: Config, states: seq<Control>, events: seq<(nat, Event)>, i: nat, j: nat)
    requires Run(cfg, states, events) && i <= j <= |events| && states[i].algo.phase.CongestionAvoidance?
    requires forall m | i <= m < j :: !Decreases(states, m)
    ensures states[j].algo.phase.CongestionAvoidance?
    ensures states[j].algo.current == Min(states[i].algo.current + Growths(states, events, i, j) * cfg.additive, cfg.max)
  {
    hide Run, Handle, React, HoldsOff, Band;
    RunInv(cfg, states, events, j);
    if i < j {
      AvoidanceIsLinear(cfg, states, events, i, j - 1);
      RunInv(cfg, states, events, j - 1);
      StepIs(cfg, states, events, j - 1);
      assert !Decreases(states, j - 1);
      AvoidanceTurn(states[j - 1].algo, events[j - 1].0, events[j - 1].1);
      OneTimeMore(Growths(states, events, i, j - 1), cfg.additive);
    }
  }

  /** So target and applied rate are at the ceiling after `n` of them, if `n` additive
      increases lead there. */
  lemma AvoidanceReachesCeiling(cfg: Config, states: seq<Control>, events: seq<(nat, Event)>, i: nat, j: nat, n: nat)
    requires Run(cfg, states, events) && i <= j <= |events| && states[i].algo.phase.CongestionAvoidance?
    requires forall m | i <= m < j :: !Decreases(states, m)
    requires states[i].algo.current + n * cfg.additive >= cfg.max && Growths(states, events, i, j) >= n
    ensures states[j].algo.current == states[j].applied == cfg.max
  {
    hide Run, Handle, React, HoldsOff, Growths;
    AvoidanceIsLinear(cfg, states, events, i, j);
    RunInv(cfg, states, events, j);
    MoreTimes(n, Growths(states, events, i, j), cfg.additive);
  }

  /** `n` slow-start steps. */
  function Faster(rate: nat, n: nat, max: nat): nat {
    if n == 0 then rate else Min(Faster(rate, n - 1, max) * 7 / 5, max)
  }

  /** In slow start nothing has cut yet, so there was no backlog. */
  lemma {:induction false} SlowStartMeansNoBacklog(cfg: Config, states: seq<Control>, events: seq<(nat, Event)>, i: nat)
    requires Run(cfg, states, events) && i <= |events| && states[i].algo.phase.SlowStart?
    ensures states[i].algo.lastBacklog == None
  {
    hide Run, Handle, Band;
    Begins(cfg, states, events);
    if i > 0 {
      StepIs(cfg, states, events, i - 1);
      RunInv(cfg, states, events, i - 1);
      SlowStartMeansNoBacklog(cfg, states, events, i - 1);
    }
  }

  lemma Begins(cfg: Config, states: seq<Control>, events: seq<(nat, Event)>)
    requires Run(cfg, states, events)
    ensures |states| == |events| + 1 && states[0].algo == NewAlgo(cfg)
  {
  }

  /** Still in slow start, or out of it because the ceiling is reached. */
  predicate Climbing(a: Algo) {
    AlgoInv(a) && a.lastBacklog == None && (a.phase.SlowStart? || a.current == a.cfg.max)
  }

  lemma ClimbingTurn(a: Algo, now: nat, e: Event)
    requires Climbing(a) && !e.SendBacklog?
    ensures var b := React(a, now, e);
            && Climbing(b) && b.cfg == a.cfg
            && b.current == if e.Timer? && !HoldsOff(a, now) then Min(a.current * 7 / 5, a.cfg.max) else a.current
  {
  }

  /** From slow start on, without a backlog, the target grows by two fifths per such tick,
      up to the ceiling. */
  lemma {:induction false} SlowStartIsGeometric(cfg: Config, states: seq<Control>, events: seq<(nat, Event)>, i: nat, j: nat)
    requires Run(cfg, states, events) && i <= j <= |events| && states[i].algo.phase.SlowStart?
    requires forall m | i <= m < j :: !events[m].1.SendBacklog?
    ensures Climbing(states[j].algo)
    ensures states[j].algo.current == Faster(states[i].algo.current, Growths(states, events, i, j), cfg.max)
  {
    hide Run, Handle, React, HoldsOff, Band;
    RunInv(cfg, states, events, j);
    if i == j {
      SlowStartMeansNoBacklog(cfg, states, events, i);
    } else {
      SlowStartIsGeometric(cfg, states, events, i, j - 1);
      RunInv(cfg, states, events, j - 1);
      StepIs(cfg, states, events, j - 1);
      ClimbingTurn(states[j - 1].algo, events[j - 1].0, events[j - 1].1);
    }
  }

  function Doubled(rate: nat, k: nat): nat {
    if k == 0 then rate else 2 * Doubled(rate, k - 1)
  }

  /** Three steps at least double a rate of three or more. */
  lemma {:induction false} ThreeStepsDouble(rate: nat, k: nat, max: nat)
    requires 3 <= rate <= max
    ensures Faster(rate, 3 * k, max) >= Min(max, Doubled(rate, k)) && Faster(rate, 3 * k, max) >= 3
  {
    if k > 0 {
      ThreeStepsDouble(rate, k - 1, max);
      var a, b, c := Faster(rate, 3 * k - 3, max), Faster(rate, 3 * k - 2, max), Faster(rate, 3 * k - 1, max);
      assert b == Min(a * 7 / 5, max) && c == Min(b * 7 / 5, max) && Faster(rate, 3 * k, max) == Min(c * 7 / 5, max);
    }
  }

  lemma {:induction false} FasterWithMore(rate: nat, m: nat, n: nat, max: nat)
    requires rate <= max && m <= n
    ensures Faster(rate, m, max) <= Faster(rate, n, max) <= max
  {
    if m < n {
      FasterWithMore(rate, m, n - 1, max);
    } else if n > 0 {
      FasterWithMore(rate, n - 1, n - 1, max);
    }
  }

  /** Target and applied rate are at the ceiling after three such ticks per doubling that
      leads there. */
  lemma SlowStartReachesCeiling(cfg: Config, states: seq<Control>, events: seq<(nat, Event)>, i: nat, j: nat, k: nat)
    requires Run(cfg, states, events) && i <= j <= |events| && states[i].algo.phase.SlowStart?
    requires forall m | i <= m < j :: !events[m].1.SendBacklog?
    requires states[i].algo.current >= 3 && Doubled(states[i].algo.current, k) >= cfg.max && Growths(states, events, i, j) >= 3 * k
    ensures states[j].algo.current == states[j].applied == cfg.max
  {
    hide Run, Handle, React, Faster, Growths, Doubled;
    SlowStartIsGeometric(cfg, states, events, i, j);
    RunInv(cfg, states, events, i);
    RunInv(cfg, states, events, j);
    ThreeStepsDouble(states[i].algo.current, k, cfg.max);
    FasterWithMore(states[i].algo.current, 3 * k, Growths(states, events, i, j), cfg.max);
  }

  /** Rounding down, slow start does not move a rate of one or two bits a second: it gets
      to the ceiling exactly from three on, or if it is there. */
  lemma SlowStartGetsThereIff(rate: nat, max: nat)
    requires rate <= max
    ensures (exists n :: Faster(rate, n, max) == max) <==> rate >= 3 || rate == max
  {
    if rate >= 3 {
      ThreeStepsDouble(rate, max, max);
      DoubledGrows(rate, max);
      FasterWithMore(rate, 3 * max, 3 * max, max);
      assert Faster(rate, 3 * max, max) == max;
    } else if rate == max {
      assert Faster(rate, 0, max) == max;
    } else {
      forall n ensures Faster(rate, n, max) != max {
        TinyStays(rate, n, max);
      }
    }
  }

  lemma {:induction false} DoubledGrows(rate: nat, k: nat)
    requires rate >= 1
    ensures Doubled(rate, k) >= k + 1
  {
    if k > 0 {
      DoubledGrows(rate, k - 1);
    }
  }

  lemma {:induction false} TinyStays(rate: nat, n: nat, max: nat)
    requires rate < 3 && rate <= max
    ensures Faster(rate, n, max) == rate
  {
    if n > 0 {
      TinyStays(rate, n - 1, max);
    }
  }

  /** Growth is pushed exactly at the ceiling, or from 15 percent above the applied rate. */
  lemma GrowthIsPushedIff(c: Control, now: nat, e: Event)
    requires ControlInv(c) && React(c.algo, now, e).current > c.algo.current
    ensures var d := Handle(c, now, e);
            && (d.pushes != c.pushes <==>
                  d.algo.current == c.algo.cfg.max || d.algo.current - c.applied >= Max(c.applied * 3 / 20, 1))
            && d.pushes == c.pushes + (if d.pushes == c.pushes then [] else [d.algo.current])
            && d.applied == if d.pushes == c.pushes then c.applied else d.algo.current
  {
    ReactInv(c.algo, now, e);
  }

  // ---------------------------------------------------------------- few rebuilds

  /** The least applied rate one growth push can lead to, short of the ceiling. */
  function OneBandUp(rate: nat): nat { rate + Band(rate) }

  function BandsUp(rate: nat, k: nat): nat {
    if k == 0 then rate else OneBandUp(BandsUp(rate, k - 1))
  }

  lemma OneBandUpMonotone(a: nat, b: nat)
    requires a <= b
    ensures OneBandUp(a) <= OneBandUp(b)
  {
  }

  /** A push that is not a cut starts below the ceiling and goes up a whole band, or
      to the ceiling. */
  lemma PushesGoABandUp(c: Control, now: nat, e: Event)
    requires ControlInv(c) && React(c.algo, now, e).current >= c.algo.current
    ensures var d := Handle(c, now, e);
            if d.pushes == c.pushes then d.applied == c.applied
            else |d.pushes| == |c.pushes| + 1 && c.applied < c.algo.cfg.max
                 && d.applied >= Min(c.algo.cfg.max, OneBandUp(c.applied))
  {
    HandleInv(c, now, e);
  }

  /** From turn `i` to turn `j` without a decrease, at most `k` rates are pushed, where
      `k` band-sized jumps from the applied rate reach the ceiling. */
  lemma {:induction false} GrowthPushesAreFew(cfg: Config, states: seq<Control>, events: seq<(nat, Event)>, i: nat, j: nat, k: nat)
    requires Run(cfg, states, events) && i <= j <= |events|
    requires forall m | i <= m < j :: !Decreases(states, m)
    requires BandsUp(states[i].applied, k) >= cfg.max
    ensures var p := |states[j].pushes| - |states[i].pushes|;
            && 0 <= p <= k && states[j].applied >= Min(cfg.max, BandsUp(states[i].applied, p))
  {
    hide Run, Handle, React, ControlInv, Band;
    RunInv(cfg, states, events, j);
    if i == j {
      assert BandsUp(states[i].applied, 0) == states[i].applied;
    } else {
      GrowthPushesAreFew(cfg, states, events, i, j - 1, k);
      var c, d, now, e := states[j - 1], states[j], events[j - 1].0, events[j - 1].1;
      RunInv(cfg, states, events, j - 1);
      assert !Decreases(states, j - 1);
      StepIs(cfg, states, events, j - 1);
      PushesGoABandUp(c, now, e);
      var p := |c.pushes| - |states[i].pushes|;
      if d.pushes != c.pushes && c.applied >= BandsUp(states[i].applied, p) {
        OneBandUpMonotone(BandsUp(states[i].applied, p), c.applied);
      }
    }
  }

  // ---------------------------------------------------------------- the starting rate

  /** Start-up only checks that the floor is below the ceiling. The invariant holds at
      the start exactly when the starting rate also lies between them. */
  lemma StartIsSoundIffBetween(cfg: Config)
    ensures ControlInv(Control(NewAlgo(cfg), cfg.initial, [])) <==> cfg.min <= cfg.initial <= cfg.max
  {
  }

  /** Otherwise the first decision goes the wrong way: the first growth tick lowers the
      rate exactly when it started above the ceiling, and the first congestion cut
      raises it exactly when it started below the floor. */
  lemma WrongWayIffOutside(cfg: Config, now: nat)
    requires cfg.min < cfg.max
    ensures React(NewAlgo(cfg), now, Timer).current < cfg.initial <==> cfg.initial > cfg.max
    ensures React(NewAlgo(cfg), now, SendBacklog).current > cfg.initial <==> cfg.initial < cfg.min
  {
  }

  // ---------------------------------------------------------------- the classes

  class BitrateAlgorithm {
    const config: Config
    var currentBitrate: nat
    var ssthresh: nat
    var phase: Phase
    var lastDecrease: Option<nat>
    var lastLatencyMs: Option<real>
    var lastBacklog: Option<nat>

    ghost function Model(): Algo
      reads this
    {
      Algo(config, currentBitrate, ssthresh, phase, lastDecrease, lastLatencyMs, lastBacklog)
    }

    constructor (config: Config)
      ensures Model() == NewAlgo(config)
    {
      this.config := config;
      currentBitrate, ssthresh, phase := config.initial, config.max, SlowStart;
      lastDecrease, lastLatencyMs, lastBacklog := None, None, None;
    }

    method CutRate(now: nat) returns (changed: Option<nat>)
      modifies this
      ensures Model() == Cut(old(Model()), now)
      ensures changed == if currentBitrate != old(currentBitrate) then Some(currentBitrate) else None
    {
      if lastDecrease.Some? && Since(now, lastDecrease.value) < config.cooldown {
        return None;
      }
      var cut := currentBitrate * 3 / 4;
      var newRate := Max(cut, config.min);
      ssthresh := newRate;
      phase := CongestionAvoidance;
      lastDecrease := Some(now);
      if newRate != currentBitrate {
        currentBitrate := newRate;
        changed := Some(newRate);
      } else {
        changed := None;
      }
    }

    method OnSendBacklog(now: nat) returns (changed: Option<nat>)
      modifies this
      ensures Model() == React(old(Model()), now, SendBacklog)
      ensures changed == if currentBitrate != old(currentBitrate) then Some(currentBitrate) else None
    {
      lastBacklog := Some(now);
      changed := CutRate(now);
    }

    method OnArrivalStall(now: nat) returns (changed: Option<nat>)
      modifies this
      ensures Model() == React(old(Model()), now, ArrivalStall)
      ensures changed == if currentBitrate != old(currentBitrate) then Some(currentBitrate) else None
    {
      var corroborated := lastBacklog.Some? && Since(now, lastBacklog.value) < CORROBORATION_WINDOW;
      if corroborated {
        changed := CutRate(now);
      } else {
        changed := None;
      }
    }

    method OnLatencyReport(ms: real)
      modifies this
      ensures Model() == old(Model()).(lastLatency := Some(ms))
    {
      lastLatencyMs := Some(ms);
    }

    method Tick(now: nat) returns (changed: Option<nat>)
      modifies this
      ensures Model() == React(old(Model()), now, Timer)
      ensures changed == if currentBitrate != old(currentBitrate) then Some(currentBitrate) else None
    {
      if lastDecrease.Some? && Since(now, lastDecrease.value) < config.cooldown {
        return None;
      }
      if lastLatencyMs.Some? && lastLatencyMs.value > config.latencyCeiling {
        return None;
      }
      var proposed;
      match phase {
        case SlowStart =>
          var grown := currentBitrate * 7 / 5;
          proposed := Min(grown, ssthresh);
        case CongestionAvoidance =>
          proposed := currentBitrate + config.additive;
      }
      var newRate := Min(proposed, config.max);
      if phase == SlowStart && newRate >= ssthresh {
        phase := CongestionAvoidance;
      }
      if newRate != currentBitrate {
        currentBitrate := newRate;
        changed := Some(newRate);
      } else {
        changed := None;
      }
    }
  }

  class AdaptiveBitrateController {
    const algo: BitrateAlgorithm
    var lastAppliedBitrate: nat
    /** `ChangeBitrate` messages sent to the encoder. */
    var sent: seq<nat>

    ghost function Model(): Control
      reads this, algo
    {
      Control(algo.Model(), lastAppliedBitrate, sent)
    }

    constructor (config: Config)
      ensures Model() == Control(NewAlgo(config), config.initial, []) && fresh(algo)
    {
      algo := new BitrateAlgorithm(config);
      lastAppliedBitrate := config.initial;
      sent := [];
    }

    method MaybeApply(newRate: nat)
      modifies this
      ensures if ShouldActuate(newRate, old(lastAppliedBitrate), algo.config.max)
              then lastAppliedBitrate == newRate && sent == old(sent) + [newRate]
              else lastAppliedBitrate == old(lastAppliedBitrate) && sent == old(sent)
    {
      if newRate > lastAppliedBitrate && newRate < algo.config.max {
        var threshold := lastAppliedBitrate * 3 / 20;
        if newRate - lastAppliedBitrate < Max(threshold, 1) {
          return;
        }
      }
      sent := sent + [newRate];
      lastAppliedBitrate := newRate;
    }

    /** One arm of the controller's select loop. */
    method OnEvent(now: nat, e: Event)
      modifies this, algo
      ensures Model() == Handle(old(Model()), now, e)
      ensures old(ControlInv(Model())) ==> ControlInv(Model())
    {
      HandleInvIf(Model(), now, e);
      var changed: Option<nat> := None;
      match e {
        case SendBacklog => changed := algo.OnSendBacklog(now);
        case ArrivalStall => changed := algo.OnArrivalStall(now);
        case Latency(ms) => algo.OnLatencyReport(ms);
        case Timer => changed := algo.Tick(now);
      }
      if changed.Some? {
        MaybeApply(changed.value);
      }
    }
  }

  lemma HandleInvIf(c: Control, now: nat, e: Event)
    ensures ControlInv(c) ==> ControlInv(Handle(c, now, e))
  {
    if ControlInv(c) {
      HandleInv(c, now, e);
    }
  }
}
