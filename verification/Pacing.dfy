/** When the capture loop ticks: a periodic deadline advanced by whole intervals, and
    early captures gated on one interval since the last accepted one. */
module Pacing {

  /** Times are instants of one clock; `lastCapture` starts one interval in the past. */
  datatype Pace = Pace(nextFrame: int, lastCapture: int)

  /** One turn of the loop: the clock, whether there was fresh work (damage or a new
      client), and whether the rendered frame would be accepted by the queue. */
  datatype Turn = Turn(now: int, work: bool, rendered: bool, accepted: bool)

  predicate Periodic(p: Pace, now: int) { now >= p.nextFrame }

  predicate Ticks(p: Pace, t: Turn, interval: nat) {
    Periodic(p, t.now) || (t.work && t.now - p.lastCapture >= interval)
  }

  /** A frame reaches the encoder's queue. */
  predicate Captures(p: Pace, t: Turn, interval: nat) {
    Ticks(p, t, interval) && t.rendered && t.accepted
  }

  function NextDeadline(nextFrame: int, now: int, interval: nat): int {
    if nextFrame + interval < now then now + interval else nextFrame + interval
  }

  function Paced(p: Pace, t: Turn, interval: nat): Pace {
    if !Ticks(p, t, interval) then p
    else Pace(NextDeadline(p.nextFrame, t.now, interval), if Captures(p, t, interval) then t.now else p.lastCapture)
  }

  ghost predicate Run(paces: seq<Pace>, turns: seq<Turn>, interval: nat) {
    && |paces| == |turns| + 1
    && (forall i | 0 <= i < |turns| :: paces[i + 1] == Paced(paces[i], turns[i], interval))
    && (forall i, j | 0 <= i <= j < |turns| :: turns[i].now <= turns[j].now)
  }

  /** Captures among turns `[a, b)`. */
  ghost function Count(paces: seq<Pace>, turns: seq<Turn>, interval: nat, a: nat, b: nat): nat
    requires |paces| == |turns| + 1 && a <= b <= |turns|
  {
    if a == b then 0
    else Count(paces, turns, interval, a, b - 1) + if Captures(paces[b - 1], turns[b - 1], interval) then 1 else 0
  }

  lemma Times(n: int, interval: nat)
    ensures (n + 1) * interval == n * interval + interval
    ensures n >= 0 ==> n * interval >= 0
  {
  }

  /** From a capture on, every further one has pushed the deadline by an interval. */
  lemma {:induction false} DeadlineAhead(paces: seq<Pace>, turns: seq<Turn>, interval: nat, a: nat, b: nat)
    requires Run(paces, turns, interval) && a < b <= |turns| && Captures(paces[a], turns[a], interval)
    ensures var n := Count(paces, turns, interval, a, b);
            && n >= 1
            && paces[b].nextFrame >= turns[a].now + (n - 1) * interval
            && paces[b].lastCapture >= turns[a].now
            && (n >= 2 ==> paces[b].lastCapture >= turns[a].now + (n - 2) * interval)
  {
    if b == a + 1 {
      assert Count(paces, turns, interval, a, a) == 0;
    } else {
      DeadlineAhead(paces, turns, interval, a, b - 1);
      var n: int := Count(paces, turns, interval, a, b - 1);
      Times(n - 1, interval);
      Times(n - 2, interval);
      assert turns[a].now <= turns[b - 1].now;
    }
  }

  /** Rate bound: any `k >= 2` consecutive captures span at least `k - 2` intervals,
      however wake-ups, drops, resyncs and forced renders fall. */
  lemma CapturesAreSpaced(paces: seq<Pace>, turns: seq<Turn>, interval: nat, a: nat, b: nat)
    requires Run(paces, turns, interval) && a < b < |turns|
    requires Captures(paces[a], turns[a], interval) && Captures(paces[b], turns[b], interval)
    ensures var k := Count(paces, turns, interval, a, b + 1);
            k >= 2 && turns[b].now - turns[a].now >= (k - 2) * interval
  {
    DeadlineAhead(paces, turns, interval, a, b);
    var n: int := Count(paces, turns, interval, a, b);
    Times(n - 2, interval);
  }

  /** The bound is the best possible for every k: a periodic tick one interval late, a
      second at once, and then one each interval. */
  function LateThenSteady(t0: int, interval: nat, i: nat): Turn {
    Turn(t0 + interval + (if i == 0 then 0 else (i - 1) * interval), false, true, true)
  }

  function SteadyPace(t0: int, interval: nat, i: nat): Pace {
    if i == 0 then Pace(t0, t0 - interval)
    else Pace(LateThenSteady(t0, interval, i).now, LateThenSteady(t0, interval, i - 1).now)
  }

  lemma SteadyStep(t0: int, interval: nat, i: nat)
    ensures var p, t := SteadyPace(t0, interval, i), LateThenSteady(t0, interval, i);
            Captures(p, t, interval) && Paced(p, t, interval) == SteadyPace(t0, interval, i + 1)
    ensures LateThenSteady(t0, interval, i).now <= LateThenSteady(t0, interval, i + 1).now
  {
    Times(i - 1, interval);
  }

  lemma {:induction false} SteadyOrder(t0: int, interval: nat, i: nat, j: nat)
    requires i <= j
    ensures LateThenSteady(t0, interval, i).now <= LateThenSteady(t0, interval, j).now
    decreases j
  {
    if i < j {
      SteadyOrder(t0, interval, i, j - 1);
      SteadyStep(t0, interval, j - 1);
    }
  }

  lemma SpacingIsTight(t0: int, interval: nat, k: nat) returns (paces: seq<Pace>, turns: seq<Turn>)
    requires k >= 2
    ensures |turns| == k && Run(paces, turns, interval) && paces[0] == Pace(t0, t0 - interval)
    ensures (forall i | 0 <= i < k :: Captures(paces[i], turns[i], interval)) && Count(paces, turns, interval, 0, k) == k
    ensures turns[k - 1].now - turns[0].now == (k - 2) * interval
  {
    turns := seq(k, i requires 0 <= i < k => LateThenSteady(t0, interval, i));
    paces := seq(k + 1, i requires 0 <= i <= k => SteadyPace(t0, interval, i));
    forall i | 0 <= i < k
      ensures Captures(paces[i], turns[i], interval) && paces[i + 1] == Paced(paces[i], turns[i], interval)
    {
      SteadyStep(t0, interval, i);
    }
    forall i, j | 0 <= i <= j < k ensures turns[i].now <= turns[j].now {
      SteadyOrder(t0, interval, i, j);
    }
    AllCounted(paces, turns, interval, k);
  }

  lemma {:induction false} AllCounted(paces: seq<Pace>, turns: seq<Turn>, interval: nat, n: nat)
    requires |paces| == |turns| + 1 && n <= |turns| && forall i | 0 <= i < n :: Captures(paces[i], turns[i], interval)
    ensures Count(paces, turns, interval, 0, n) == n
  {
    if n > 0 {
      AllCounted(paces, turns, interval, n - 1);
    }
  }

  // ---------------------------------------------------------------- the deadline itself

  /** A tick never leaves the deadline behind the clock: on schedule it moves on by one
      interval; a whole interval or more behind, it is set one interval from now. */
  lemma DeadlineAfterTick(p: Pace, t: Turn, interval: nat)
    requires Ticks(p, t, interval)
    ensures var q := Paced(p, t, interval);
            && q.nextFrame >= t.now
            && (q.nextFrame == p.nextFrame + interval || q.nextFrame == t.now + interval)
            && (q.nextFrame == p.nextFrame + interval <==> t.now <= p.nextFrame + interval)
  {
  }

  /** After a tick the next deadline is at most one interval away exactly when the
      tick was due; an early tick leaves it further off. */
  lemma DeadlineWithinInterval(p: Pace, t: Turn, interval: nat)
    requires Ticks(p, t, interval)
    ensures Paced(p, t, interval).nextFrame <= t.now + interval <==> Periodic(p, t.now)
  {
  }

  /** Ticks among turns `[a, b)`. */
  ghost function Ticked(paces: seq<Pace>, turns: seq<Turn>, interval: nat, a: nat, b: nat): nat
    requires |paces| == |turns| + 1 && a <= b <= |turns|
  {
    if a == b then 0
    else Ticked(paces, turns, interval, a, b - 1) + if Ticks(paces[b - 1], turns[b - 1], interval) then 1 else 0
  }

  /** The tick came so late that the deadline was set from the clock. */
  predicate Resyncs(p: Pace, t: Turn, interval: nat) {
    Ticks(p, t, interval) && p.nextFrame + interval < t.now
  }

  /** Over any part of any run the deadline moves on by at least an interval per tick, and
      by no more exactly if no tick resynchronised. */
  lemma {:induction false} DeadlineCountsTicks(paces: seq<Pace>, turns: seq<Turn>, interval: nat, a: nat, b: nat)
    requires Run(paces, turns, interval) && a <= b <= |turns|
    ensures var reached := paces[a].nextFrame + Ticked(paces, turns, interval, a, b) * interval;
            && paces[b].nextFrame >= reached
            && (paces[b].nextFrame == reached <==> forall i | a <= i < b :: !Resyncs(paces[i], turns[i], interval))
  {
    if a < b {
      DeadlineCountsTicks(paces, turns, interval, a, b - 1);
      Times(Ticked(paces, turns, interval, a, b - 1), interval);
      assert paces[b] == Paced(paces[b - 1], turns[b - 1], interval);
      assert (forall i | a <= i < b :: !Resyncs(paces[i], turns[i], interval))
        <==> (forall i | a <= i < b - 1 :: !Resyncs(paces[i], turns[i], interval)) && !Resyncs(paces[b - 1], turns[b - 1], interval);
    }
  }

  /** While the queue stays full wake-ups tick early, and each dropped frame puts the
      deadline off by an interval however little time passes: from turns before the
      deadline none of which captures, it ends up an interval further per tick. */
  lemma DropsPushDeadline(paces: seq<Pace>, turns: seq<Turn>, interval: nat, a: nat, b: nat)
    requires Run(paces, turns, interval) && a <= b <= |turns|
    requires forall i | a <= i < b :: turns[i].now <= paces[i].nextFrame && !Captures(paces[i], turns[i], interval)
    ensures paces[b] == Pace(paces[a].nextFrame + Ticked(paces, turns, interval, a, b) * interval, paces[a].lastCapture)
    ensures (forall i | a <= i < b :: turns[i].work && turns[i].now - paces[a].lastCapture >= interval) ==>
              Ticked(paces, turns, interval, a, b) == b - a
  {
    DeadlineCountsTicks(paces, turns, interval, a, b);
    SameCapture(paces, turns, interval, a, b);
  }

  lemma {:induction false} SameCapture(paces: seq<Pace>, turns: seq<Turn>, interval: nat, a: nat, b: nat)
    requires Run(paces, turns, interval) && a <= b <= |turns|
    requires forall i | a <= i < b :: !Captures(paces[i], turns[i], interval)
    ensures paces[b].lastCapture == paces[a].lastCapture
    ensures (forall i | a <= i < b :: turns[i].work && turns[i].now - paces[a].lastCapture >= interval) ==>
              Ticked(paces, turns, interval, a, b) == b - a
  {
    if a < b {
      SameCapture(paces, turns, interval, a, b - 1);
      assert paces[b] == Paced(paces[b - 1], turns[b - 1], interval);
    }
  }
}
