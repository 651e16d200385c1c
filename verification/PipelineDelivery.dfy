/** What is reported is queued and what is asked for is served: from a commit's report to
    the bands of the next queued frame, and from a due keyframe to a forced submission. */
module PipelineDelivery {
  import opened Image
  import opened Options
  import opened Compose
  import opened Damage
  import opened Compositor
  import opened Convert
  import opened Frames
  import opened Encoder
  import opened Pipeline
  import opened Reports
  import opened PipelineProof
  import opened PipelineTheorems

  // ---------------------------------------------------------------- reports

  /** A commit that reports a rectangle leaves damage, on every row of the output that the
      rectangle touches and on every row that was damaged before. */
  lemma CommitMarks(cv: Converter, s: State, after: Scene, report: Option<Rect>, t: State, r: nat)
    requires Next(cv, s, Commit(after, report), t) && r < s.comp.h
    requires RowDirty(s.comp.damage, s.comp.w, r)
          || (report.Some? && exists x: nat :: x < s.comp.w && report.value.Contains(x, r))
    ensures RowDirty(t.comp.damage, t.comp.w, r) && Marked(t, r) && t.comp.damage != []
  {
    CommitLeavesReport(s.comp.damage, report, s.comp.w, s.comp.h);
    hide Accumulate, Grown;
    if RowDirty(s.comp.damage, s.comp.w, r) {
      var x :| 0 <= x < s.comp.w && Covers(s.comp.damage, x, r);
      assert Reported(s.comp.damage, report, x, r) && Covers(t.comp.damage, x, r);
    } else {
      var x: nat :| x < s.comp.w && report.value.Contains(x, r);
      assert Reported(s.comp.damage, report, x, r) && Covers(t.comp.damage, x, r);
    }
  }

  /** An ordinary commit with its report is honest: it keeps a truthful canvas truthful. */
  lemma OrdinaryCommitIsHonest(s: State, below: Scene, above: Scene, x: int, y: int, before: Surface, after: Surface, rects: seq<Rect>)
    requires s.comp.scene == below + [Window(x, y, before)] + above && Placeable(x, y, s.comp.w, s.comp.h)
    requires Readable(before) && Readable(after) && DamageTells(before, after, rects)
    ensures Honest(s, Commit(below + [Window(x, y, after)] + above, SurfaceDamage(rects, x, y)))
  {
    hide ChangesWithin, Grown, SurfaceDamage;
    ReportIsEnough(below, above, x, y, before, after, rects, s.comp.damage, s.comp.w, s.comp.h);
  }

  /** The next frame to be queued will report row `r`, if it has that row. */
  ghost predicate Owed(s: State, r: nat) {
    r < s.comp.h ==> Marked(s, r)
  }

  /** A row owed stays owed until a frame is queued, through ticks, drops, resizes and
      whatever the encoder thread does. */
  lemma OwedStays(cv: Converter, s: State, step: Step, t: State, r: nat)
    requires PictureInv(cv, s) && Next(cv, s, step, t) && Owed(s, r) && t.queued == s.queued
    ensures Owed(t, r)
  {
    hide AdvanceStep, Repainted, Chained, EncOk, Behind, Carries, Accumulate, Grown, Readd, RowDirty, RowIn, Bounded;
    if r < t.comp.h {
      match step {
        case Commit(after, report) => CommitMarks(cv, s, after, report, t, r);
        case ChangeWindows(after) => FullMarks(s.comp, r);
        case Resize(w, h) => FullMarks(s.comp.(w := w, h := h), r);
        case Draw(canvas, bands) => DrawMarks(s, canvas, bands, t, r);
        case Offer => DropStaysDirty(cv, s, t);
        case Advance(planes, sent) => AdvanceKeepsComp(cv, s, planes, sent, t);
        case _ =>
      }
    }
  }

  lemma FullMarks(c: Comp, r: nat)
    requires 0 < c.w && r < c.h
    ensures RowDirty(Damaged(c, Full(c.w, c.h)).damage, c.w, r)
  {
    AccumulateCovers(c.damage, Full(c.w, c.h), Full(c.w, c.h), 0, r);
  }

  lemma DrawMarks(s: State, canvas: seq<Byte>, bands: seq<Band>, t: State, r: nat)
    requires SizeOk(s.comp.w, s.comp.h) && DrawStep(s, canvas, bands, t) && r < s.comp.h && Marked(s, r)
    ensures Marked(t, r)
  {
    var c := s.comp;
    if !RowIn(bands, r) {
      RenderKeepsOtherRows(c.w, c.h, c.canvas, c.damage, canvas, bands, r);
    }
  }

  lemma {:induction false} OwedUntilQueued(cv: Converter, states: seq<State>, steps: seq<Step>, i: nat, j: nat, r: nat)
    requires Run(cv, states, steps) && i <= j <= |steps| && Owed(states[i], r)
    requires forall k | i <= k < j :: states[k + 1].queued == states[k].queued
    ensures Owed(states[j], r)
  {
    hide Next, Owed, PictureInv;
    if i < j {
      OwedUntilQueued(cv, states, steps, i, j - 1, r);
      RunInv(cv, states, steps, j - 1);
      OwedStays(cv, states[j - 1], steps[j - 1], states[j], r);
    }
  }

  /** A row that a commit reports is among the bands of the first frame queued after it,
      however many ticks, dropped frames and resizes come first, unless the output has
      lost that row by then. */
  lemma ReportIsQueued(cv: Converter, states: seq<State>, steps: seq<Step>, i: nat, j: nat, x: nat, r: nat)
    requires Run(cv, states, steps) && i < j < |steps|
    requires steps[i].Commit? && steps[i].report.Some? && steps[i].report.value.Contains(x, r)
    requires x < states[i].comp.w && r < states[i].comp.h
    requires forall k | i < k < j :: states[k + 1].queued == states[k].queued
    requires states[j + 1].queued != states[j].queued
    ensures states[j + 1].frames == states[j].frames + [states[j + 1].frames[|states[j].frames|]]
    ensures var f := states[j + 1].frames[|states[j].frames|];
            && f.h == states[j].comp.h && f.data == states[j].comp.canvas
            && (r < f.h ==> RowIn(f.damage, r))
  {
    hide PictureInv, Repainted, AdvanceStep;
    CommitMarks(cv, states[i], steps[i].after, steps[i].report, states[i + 1], r);
    OwedUntilQueued(cv, states, steps, i + 1, j, r);
    QueuedByOffer(cv, states[j], steps[j], states[j + 1]);
    RunInv(cv, states, steps, j);
    CarriedWhole(cv, states[j]);
  }

  lemma QueuedByOffer(cv: Converter, s: State, step: Step, t: State)
    requires Next(cv, s, step, t) && t.queued != s.queued
    ensures step.Offer? && s.loop.Offering? && t == Offered(s) && |s.frames| < FRAME_QUEUE
  {
    hide Repainted, Accumulate, Readd, Grown, SubmitStep;
    if step.Advance? && s.phase.Submitting? {
      SubmitSince(cv, s, s.phase.frame, step.planes, step.sent, t);
    }
  }

  lemma CarriedWhole(cv: Converter, s: State)
    requires PictureInv(cv, s) && s.loop.Offering?
    ensures s.loop.frame.h == s.comp.h && s.loop.frame.data == s.comp.canvas
  {
    hide Chained, EncOk;
  }

  // ---------------------------------------------------------------- requests

  /** A keyframe that is due or asked for by a client, or a new rate, is queued behind
      everything else, if the control queue has room; otherwise nothing is. */
  lemma DueIsAsked(cv: Converter, s: State, step: Step, t: State)
    requires Next(cv, s, step, t) && (step.Request? || step.Ask? || step.ChangeRate?)
    ensures var keyframe := (step.Ask? || (step.Request? && step.due)) && |s.control| < CONTROL_QUEUE;
            && t.asked == s.asked + (if keyframe then 1 else 0)
            && t.control == s.control + if keyframe then [ForceKeyframe] else if step.ChangeRate? then [ChangeBitrate(step.bps)] else []
  {
  }

  lemma {:induction false} QueuedGrows(cv: Converter, states: seq<State>, steps: seq<Step>, k: nat, i: nat)
    requires Run(cv, states, steps) && k <= i <= |steps|
    ensures states[k].queued <= states[i].queued
  {
    hide Next;
    if k < i {
      QueuedGrows(cv, states, steps, k, i - 1);
      if states[i].queued != states[i - 1].queued {
        QueuedByOffer(cv, states[i - 1], steps[i - 1], states[i]);
      }
    }
  }

  /** Every frame queued after a step carries all requests queued up to that step. */
  lemma QueuedFrameCarriesAsks(cv: Converter, states: seq<State>, steps: seq<Step>, k: nat, j: nat)
    requires Run(cv, states, steps) && k < j < |steps| && states[j + 1].queued != states[j].queued
    ensures |states[j + 1].frames| == |states[j].frames| + 1
    ensures var f := states[j + 1].frames[|states[j].frames|];
            f.asks >= states[k + 1].asked && f.serial >= states[k + 1].queued
  {
    QueuedByOffer(cv, states[j], steps[j], states[j + 1]);
    AskedGrows(cv, states, steps, k + 1, j);
    QueuedGrows(cv, states, steps, k + 1, j);
  }

  /** Requests are used up by forced submissions only, each at least one. */
  lemma ServedMeansForced(cv: Converter, states: seq<State>, steps: seq<Step>, k: nat)
    requires Run(cv, states, steps) && k < |steps|
    ensures var s, t := states[k], states[k + 1];
            s.served <= t.served && t.forced == if s.served < t.served then s.forced + 1 else s.forced
  {
    hide Next, FramesCounted, Asks;
    if Submits(states[k], steps[k]) {
      RunKeys(cv, states, steps, k);
      ServedAfter(cv, states[k], steps[k], states[k + 1]);
      var j := SubmissionServesAllAsks(cv, states, steps, k);
    } else {
      ServedOnlyBySubmission(cv, states[k], steps[k], states[k + 1]);
    }
  }

  lemma ServedAfter(cv: Converter, s: State, step: Step, t: State)
    requires Next(cv, s, step, t) && Submits(s, step)
    ensures t.served == if s.force then s.drained else s.served
  {
    hide Converted, Viewed, Sized, Bytes;
  }

  lemma {:induction false} ForcedSince(cv: Converter, states: seq<State>, steps: seq<Step>, k: nat, i: nat)
    requires Run(cv, states, steps) && k <= i <= |steps|
    ensures states[k].served <= states[i].served && states[k].forced <= states[i].forced
    ensures states[k].served < states[i].served ==> states[k].forced < states[i].forced
  {
    hide Next;
    if k < i {
      ForcedSince(cv, states, steps, k, i - 1);
      ServedMeansForced(cv, states, steps, i - 1);
    }
  }

  /** From a due tick, or a client's request, with room in the control queue: by the first
      submission of any frame queued after it, a keyframe has been forced since. */
  lemma DueKeyframeIsForced(cv: Converter, states: seq<State>, steps: seq<Step>, k: nat, i: nat)
    requires Run(cv, states, steps) && k < i < |steps| && Submits(states[i], steps[i])
    requires steps[k] == Request(true) || steps[k] == Ask
    requires |states[k].control| < CONTROL_QUEUE
    requires states[i].phase.frame.serial >= states[k + 1].queued
    ensures states[i + 1].served > states[k].asked && states[i + 1].forced > states[k].forced
  {
    hide KeyInv;
    DueIsAsked(cv, states[k], steps[k], states[k + 1]);
    hide Next;
    RequestsBeforeAFrameAreServed(cv, states, steps, k + 1, i);
    NoMoreServedThanAsked(cv, states, steps, k);
    ForcedSince(cv, states, steps, k, i + 1);
  }

  lemma NoMoreServedThanAsked(cv: Converter, states: seq<State>, steps: seq<Step>, k: nat)
    requires Run(cv, states, steps) && k <= |steps|
    ensures states[k].served <= states[k].asked
  {
    hide Next, FramesCounted;
    RunKeys(cv, states, steps, k);
  }
}
