/** One client at a time: the generation counter and the watch channel through which
    a newer `/client` connection replaces the older ones. Each atomic access of a
    handler is one step; any number of handlers interleave. */
module Takeover {

  /** A handler's life: claim a generation, subscribe, publish, start up, then listen
      for changes; a wake-up marks the change seen before the counter is read. */
  datatype Phase = Claimed | Subscribed | Starting | Listening | Woken | Kicked | Gone

  datatype Client = Client(gen: nat, phase: Phase, seen: nat)

  /** The atomic counter, the watch channel's version and value, and every handler
      ever started. */
  datatype State = State(counter: nat, version: nat, value: nat, clients: seq<Client>)

  datatype Step = Claim | Subscribe | Publish | Enter | Wake | Check | Leave

  predicate Init(s: State) {
    s.counter == 0 && s.version == 0 && s.value == 0 && s.clients == []
  }

  predicate Published(p: Phase) { p.Starting? || p.Listening? || p.Woken? }
  predicate Live(p: Phase) { p.Claimed? || p.Subscribed? || Published(p) }

  function With(s: State, i: nat, c: Client): State
    requires i < |s.clients|
  {
    s.(clients := s.clients[i := c])
  }

  predicate Enabled(s: State, step: Step, i: nat) {
    step.Claim? ||
    (i < |s.clients| &&
      match step
      case Claim => true
      case Subscribe => s.clients[i].phase.Claimed?
      case Publish => s.clients[i].phase.Subscribed?
      case Enter => s.clients[i].phase.Starting?
      case Wake => s.clients[i].phase.Listening? && s.clients[i].seen != s.version
      case Check => s.clients[i].phase.Woken?
      case Leave => Published(s.clients[i].phase))
  }

  function Do(s: State, step: Step, i: nat): State
    requires Enabled(s, step, i)
  {
    match step
    case Claim => s.(counter := s.counter + 1, clients := s.clients + [Client(s.counter + 1, Claimed, 0)])
    case Subscribe => With(s, i, s.clients[i].(phase := Subscribed, seen := s.version))
    case Publish => With(s, i, s.clients[i].(phase := Starting)).(version := s.version + 1, value := s.clients[i].gen)
    case Enter => With(s, i, s.clients[i].(phase := Listening))
    case Wake => With(s, i, s.clients[i].(phase := Woken, seen := s.version))
    case Check => With(s, i, s.clients[i].(phase := if s.counter != s.clients[i].gen then Kicked else Listening))
    case Leave => With(s, i, s.clients[i].(phase := Gone))
  }

  /** States along a sequence of enabled steps, from any state. */
  ghost predicate Steps(states: seq<State>, steps: seq<(Step, nat)>) {
    && |states| == |steps| + 1
    && forall k | 0 <= k < |steps| ::
         Enabled(states[k], steps[k].0, steps[k].1) && states[k + 1] == Do(states[k], steps[k].0, steps[k].1)
  }

  ghost predicate Run(states: seq<State>, steps: seq<(Step, nat)>) {
    Steps(states, steps) && Init(states[0])
  }

  // ---------------------------------------------------------------- safety

  /** Some handler newer than `i` has claimed and not yet published. */
  ghost predicate NewerPending(s: State, i: nat) {
    exists j :: i < j < |s.clients| && (s.clients[j].phase.Claimed? || s.clients[j].phase.Subscribed?)
  }

  /** A published handler of an old generation will still notice: it has an unseen
      change, is about to read the counter, or a newer claimer has yet to publish. */
  ghost predicate WillNotice(s: State, i: nat)
    requires i < |s.clients|
  {
    var c := s.clients[i];
    c.gen < s.counter && Published(c.phase) ==> c.seen != s.version || c.phase.Woken? || NewerPending(s, i)
  }

  ghost predicate Inv(s: State) {
    && s.counter == |s.clients|
    && (forall i | 0 <= i < |s.clients| :: s.clients[i].gen == i + 1)
    && (forall i | 0 <= i < |s.clients| :: s.clients[i].seen <= s.version)
    && (forall i | 0 <= i < |s.clients| && s.clients[i].phase.Kicked? :: s.clients[i].gen < s.counter)
    && (forall i | 0 <= i < |s.clients| :: WillNotice(s, i))
  }

  lemma PendingKept(s: State, t: State, i: nat)
    requires NewerPending(s, i) && |s.clients| <= |t.clients|
    requires forall j | i < j < |s.clients| && (s.clients[j].phase.Claimed? || s.clients[j].phase.Subscribed?) ::
               t.clients[j].phase.Claimed? || t.clients[j].phase.Subscribed?
    ensures NewerPending(t, i)
  {
  }

  lemma StepInv(s: State, step: Step, k: nat)
    requires Inv(s) && Enabled(s, step, k)
    ensures Inv(Do(s, step, k))
  {
    var t := Do(s, step, k);
    forall i | 0 <= i < |t.clients| ensures WillNotice(t, i) {
      if step.Claim? {
        assert i < |s.clients| ==> t.clients[|s.clients|].phase.Claimed? && NewerPending(t, i);
      } else {
        assert WillNotice(s, i);
        if !step.Publish? && NewerPending(s, i) {
          PendingKept(s, t, i);
        }
      }
    }
  }

  lemma {:induction false} RunInv(states: seq<State>, steps: seq<(Step, nat)>, k: nat)
    requires Run(states, steps) && k <= |steps|
    ensures Inv(states[k])
  {
    if k > 0 {
      RunInv(states, steps, k - 1);
      StepInv(states[k - 1], steps[k - 1].0, steps[k - 1].1);
    }
  }

  /** Nothing left to do without a new connection: all published, nobody about to
      read the counter, every listener up to date. */
  ghost predicate Quiescent(s: State) {
    forall i | 0 <= i < |s.clients| && Live(s.clients[i].phase) ::
      s.clients[i].phase.Listening? && s.clients[i].seen == s.version
  }

  /** In every reachable quiescent state at most one handler is live, and it holds the
      highest generation ever claimed. */
  lemma QuietMeansOne(states: seq<State>, steps: seq<(Step, nat)>, k: nat)
    requires Run(states, steps) && k <= |steps| && Quiescent(states[k])
    ensures var s := states[k];
            && (forall i | 0 <= i < |s.clients| && Live(s.clients[i].phase) :: s.clients[i].gen == s.counter)
            && (forall i, j | 0 <= i < |s.clients| && 0 <= j < |s.clients| && Live(s.clients[i].phase) && Live(s.clients[j].phase) :: i == j)
  {
    RunInv(states, steps, k);
    var s := states[k];
    forall i | 0 <= i < |s.clients| && Live(s.clients[i].phase) ensures s.clients[i].gen == s.counter {
      assert WillNotice(s, i);
    }
  }

  /** The kick arm never closes the newest connection: whoever it closed is older than
      some claimer. */
  lemma NewestIsNeverKicked(states: seq<State>, steps: seq<(Step, nat)>, k: nat, i: nat)
    requires Run(states, steps) && k <= |steps| && i < |states[k].clients|
    requires states[k].clients[i].gen == states[k].counter
    ensures !states[k].clients[i].phase.Kicked?
  {
    RunInv(states, steps, k);
  }

  // ---------------------------------------------------------------- progress

  function Pre(c: Client): nat {
    if c.phase.Claimed? then 2 else if c.phase.Subscribed? then 1 else 0
  }

  function Post(c: Client, version: nat): nat {
    if Published(c.phase) then
      (if c.seen != version then 3 else 0) + (if c.phase.Listening? then 0 else 1)
    else 0
  }

  /** Protocol work left: unpublished handlers first, then unseen changes. */
  function PreWork(cs: seq<Client>): nat {
    if cs == [] then 0 else PreWork(cs[..|cs| - 1]) + Pre(cs[|cs| - 1])
  }

  function PostWork(cs: seq<Client>, version: nat): nat {
    if cs == [] then 0 else PostWork(cs[..|cs| - 1], version) + Post(cs[|cs| - 1], version)
  }

  lemma {:induction false} WorkAfterUpdate(cs: seq<Client>, i: nat, c: Client, version: nat)
    requires i < |cs|
    ensures PreWork(cs[i := c]) == PreWork(cs) - Pre(cs[i]) + Pre(c)
    ensures PostWork(cs[i := c], version) == PostWork(cs, version) - Post(cs[i], version) + Post(c, version)
  {
    var n := |cs| - 1;
    if i < n {
      assert cs[i := c][..n] == cs[..n][i := c];
      WorkAfterUpdate(cs[..n], i, c, version);
    } else {
      assert cs[i := c][..n] == cs[..n];
    }
  }

  lemma {:induction false} PostWorkBounded(cs: seq<Client>, version: nat)
    ensures PostWork(cs, version) <= 4 * |cs|
  {
    if cs != [] {
      PostWorkBounded(cs[..|cs| - 1], version);
    }
  }

  /** A bound on the protocol steps still possible: a publish may wake every handler. */
  function Work(s: State): nat {
    PreWork(s.clients) * (4 * |s.clients| + 1) + PostWork(s.clients, s.version)
  }

  /** The steps of the protocol itself, as against connections coming and going. */
  predicate Protocol(step: Step) { !step.Claim? && !step.Leave? }

  /** Every step of the protocol uses up work; a client leaving adds none. */
  lemma StepsProgress(s: State, step: Step, i: nat)
    requires Enabled(s, step, i) && !step.Claim?
    ensures Work(Do(s, step, i)) + (if Protocol(step) then 1 else 0) <= Work(s)
  {
    var t := Do(s, step, i);
    WorkAfterUpdate(s.clients, i, t.clients[i], s.version);
    PostWorkBounded(t.clients, t.version);
    var fewer := PreWork(t.clients) < PreWork(s.clients);
    assert if step.Subscribe? || step.Publish? then fewer else t.version == s.version && PreWork(t.clients) == PreWork(s.clients);
    hide PreWork, PostWork;
    if fewer {
      Traded(PreWork(s.clients), PreWork(t.clients), 4 * |s.clients|);
    }
  }

  lemma Traded(p: nat, q: nat, n: nat)
    requires q < p
    ensures q * (n + 1) + n + 1 <= p * (n + 1)
  {
    assert (q + 1) * (n + 1) <= p * (n + 1);
  }

  function ProtocolSteps(steps: seq<(Step, nat)>): nat {
    if steps == [] then 0
    else ProtocolSteps(steps[..|steps| - 1]) + if Protocol(steps[|steps| - 1].0) then 1 else 0
  }

  /** Without new connections, every run makes only so many protocol steps. */
  lemma {:induction false} RunsAreBounded(states: seq<State>, steps: seq<(Step, nat)>)
    requires Steps(states, steps) && forall k | 0 <= k < |steps| :: !steps[k].0.Claim?
    ensures ProtocolSteps(steps) + Work(states[|steps|]) <= Work(states[0])
  {
    hide Work, Do, Enabled;
    if steps != [] {
      var n := |steps| - 1;
      RunsAreBounded(states[..n + 1], steps[..n]);
      StepsProgress(states[n], steps[n].0, steps[n].1);
    }
  }

  /** A state is quiescent exactly when no step of the protocol is possible. */
  lemma QuietIffStuck(s: State)
    ensures Quiescent(s) <==> forall step: Step, i: nat | Protocol(step) :: !Enabled(s, step, i)
  {
    if !Quiescent(s) {
      var i := Unsettled(s);
      assert Enabled(s, NextStep(s.clients[i].phase), i);
    }
  }

  lemma Unsettled(s: State) returns (i: nat)
    requires !Quiescent(s)
    ensures i < |s.clients| && Enabled(s, NextStep(s.clients[i].phase), i)
  {
    i :| i < |s.clients| && Live(s.clients[i].phase)
         && !(s.clients[i].phase.Listening? && s.clients[i].seen == s.version);
  }

  /** The protocol step a live handler takes next. */
  function NextStep(p: Phase): (step: Step)
    ensures Protocol(step)
  {
    match p
    case Claimed => Subscribe
    case Subscribed => Publish
    case Starting => Enter
    case Listening => Wake
    case _ => Check
  }

  /** Only departures end the newest handler. */
  lemma {:induction false} NewestSurvives(states: seq<State>, steps: seq<(Step, nat)>)
    requires Steps(states, steps) && Inv(states[0]) && forall k | 0 <= k < |steps| :: Protocol(steps[k].0)
    ensures var n := |states[0].clients|; var t := states[|steps|];
            && Inv(t) && |t.clients| == n && t.counter == states[0].counter
            && (n > 0 ==> (Live(t.clients[n - 1].phase) <==> Live(states[0].clients[n - 1].phase)))
  {
    if steps != [] {
      var m := |steps| - 1;
      NewestSurvives(states[..m + 1], steps[..m]);
      StepInv(states[m], steps[m].0, steps[m].1);
    }
  }

  /** Left alone, the protocol settles, whatever the order: a run without connections
      coming or going is finite, and where it cannot go on no handler is live but the
      newest, which is if it was. */
  lemma EveryRunSettles(states: seq<State>, steps: seq<(Step, nat)>)
    requires Steps(states, steps) && Inv(states[0]) && forall k | 0 <= k < |steps| :: Protocol(steps[k].0)
    ensures |steps| <= Work(states[0])
    ensures var s, t := states[0], states[|steps|];
            (forall step: Step, i: nat | Protocol(step) :: !Enabled(t, step, i)) ==>
              forall i | 0 <= i < |t.clients| :: Live(t.clients[i].phase) <==> i == |s.clients| - 1 && Live(s.clients[i].phase)
  {
    RunsAreBounded(states, steps);
    AllProtocol(steps);
    NewestSurvives(states, steps);
    var t := states[|steps|];
    QuietIffStuck(t);
    if Quiescent(t) {
      OnlyNewest(t);
    }
  }

  lemma {:induction false} AllProtocol(steps: seq<(Step, nat)>)
    requires forall k | 0 <= k < |steps| :: Protocol(steps[k].0)
    ensures ProtocolSteps(steps) == |steps|
  {
    if steps != [] {
      AllProtocol(steps[..|steps| - 1]);
    }
  }

  lemma OnlyNewest(s: State)
    requires Inv(s) && Quiescent(s)
    ensures forall i | 0 <= i < |s.clients| && Live(s.clients[i].phase) :: i == |s.clients| - 1
  {
    forall i | 0 <= i < |s.clients| && Live(s.clients[i].phase) ensures i == |s.clients| - 1 {
      assert WillNotice(s, i);
    }
  }

  /** And it can always be run to such an end. */
  lemma {:induction false} Settles(s: State) returns (states: seq<State>, steps: seq<(Step, nat)>)
    requires Inv(s)
    ensures Steps(states, steps) && |states| == |steps| + 1 && states[0] == s
    ensures (forall k | 0 <= k < |steps| :: Protocol(steps[k].0)) && Quiescent(states[|steps|])
    decreases Work(s)
  {
    if Quiescent(s) {
      states, steps := [s], [];
    } else {
      var i := Unsettled(s);
      var step := NextStep(s.clients[i].phase);
      StepInv(s, step, i);
      StepsProgress(s, step, i);
      var rest, more := Settles(Do(s, step, i));
      states, steps := [s] + rest, [(step, i)] + more;
      Prepended(s, step, i, rest, more);
    }
  }

  lemma Prepended(s: State, step: Step, i: nat, rest: seq<State>, more: seq<(Step, nat)>)
    requires Enabled(s, step, i) && Steps(rest, more) && rest[0] == Do(s, step, i)
    ensures Steps([s] + rest, [(step, i)] + more)
  {
    hide Do, Enabled;
    var states, steps := [s] + rest, [(step, i)] + more;
    forall k | 0 <= k < |steps|
      ensures Enabled(states[k], steps[k].0, steps[k].1) && states[k + 1] == Do(states[k], steps[k].0, steps[k].1)
    {
      if k > 0 {
        assert states[k] == rest[k - 1] && steps[k] == more[k - 1] && states[k + 1] == rest[k];
      }
    }
  }

  /** Why the counter is re-read and the watch value is not trusted: publishes can
      race, leaving the value at an older generation than the counter's. */
  lemma WatchValueCanRegress()
    ensures exists states: seq<State>, steps: seq<(Step, nat)> ::
      Run(states, steps) && |states| == |steps| + 1 && var s := states[|steps|];
      && s.counter == 2 && s.value == 1 && |s.clients| == 2
      && s.clients[1].phase.Woken? && s.clients[1].gen == s.counter
      && Do(s, Check, 1).clients[1].phase.Listening?
  {
    var s0 := State(0, 0, 0, []);
    var s1 := State(1, 0, 0, [Client(1, Claimed, 0)]);
    var s2 := State(1, 0, 0, [Client(1, Subscribed, 0)]);
    var s3 := State(2, 0, 0, [Client(1, Subscribed, 0), Client(2, Claimed, 0)]);
    var s4 := State(2, 0, 0, [Client(1, Subscribed, 0), Client(2, Subscribed, 0)]);
    var s5 := State(2, 1, 2, [Client(1, Subscribed, 0), Client(2, Starting, 0)]);
    var s6 := State(2, 2, 1, [Client(1, Starting, 0), Client(2, Starting, 0)]);
    var s7 := State(2, 2, 1, [Client(1, Starting, 0), Client(2, Listening, 0)]);
    var s8 := State(2, 2, 1, [Client(1, Starting, 0), Client(2, Woken, 2)]);
    hide Run;
    var run, steps := Started(s0);
    run, steps := Extended(run, steps, Claim, 0, s1);
    run, steps := Extended(run, steps, Subscribe, 0, s2);
    run, steps := Extended(run, steps, Claim, 1, s3);
    run, steps := Extended(run, steps, Subscribe, 1, s4);
    run, steps := Extended(run, steps, Publish, 1, s5);
    run, steps := Extended(run, steps, Publish, 0, s6);
    run, steps := Extended(run, steps, Enter, 1, s7);
    run, steps := Extended(run, steps, Wake, 1, s8);
    assert run[|steps|] == s8;
  }

  lemma Started(s: State) returns (run: seq<State>, steps: seq<(Step, nat)>)
    requires Init(s)
    ensures Run(run, steps) && |run| == |steps| + 1 && run[|steps|] == s
  {
    run, steps := [s], [];
  }

  /** A run is extended by one enabled step. */
  lemma Extended(states: seq<State>, steps: seq<(Step, nat)>, step: Step, i: nat, t: State)
    returns (run: seq<State>, more: seq<(Step, nat)>)
    requires Run(states, steps) && |states| == |steps| + 1
    requires Enabled(states[|steps|], step, i) && t == Do(states[|steps|], step, i)
    ensures Run(run, more) && |run| == |more| + 1 && run[|more|] == t
  {
    run, more := states + [t], steps + [(step, i)];
  }
}
