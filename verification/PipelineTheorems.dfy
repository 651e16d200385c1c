/** What the pipeline guarantees over whole runs. */
module PipelineTheorems {
  import opened Image
  import opened Options
  import opened Damage
  import opened Compositor
  import opened Convert
  import opened Frames
  import opened Encoder
  import opened Pipeline
  import opened PipelineProof

  // ---------------------------------------------------------------- coherence

  /** The encoder thread hands a frame to libx264. */
  predicate Submits(s: State, step: Step) {
    step.Advance? && s.phase.Submitting?
  }

  /** No interleaving of commits, resizes, ticks, full-queue drops, skips, keyframe
      requests and bitrate changes lets the YUV frame handed to libx264 differ from a
      full conversion of the frame being submitted, which has the encoder's size. */
  lemma EverySubmissionIsExact(cv: Converter, states: seq<State>, steps: seq<Step>, i: nat)
    requires Run(cv, states, steps) && i < |steps| && Submits(states[i], steps[i])
    ensures var f, enc := states[i].phase.frame, states[i + 1].enc;
            && FrameOk(f) && enc.w == f.w && enc.h == f.h
            && enc.planes == FullConvert(cv, Rows(f))
  {
    RunInv(cv, states, steps, i);
    var s, f := states[i], states[i].phase.frame;
    assert Chain(s)[0] == f;
    SubmitConvertsInFull(cv, s, f, steps[i].planes, steps[i].sent, states[i + 1]);
  }

  /** A frame is converted band by band only over the exact conversion of an earlier
      frame of its size; a freshly allocated YUV frame is first converted in full. */
  lemma BandsNeedABase(cv: Converter, states: seq<State>, steps: seq<Step>, i: nat)
    requires Run(cv, states, steps) && i < |steps| && Submits(states[i], steps[i])
    ensures var s, f := states[i], states[i].phase.frame;
            !s.enc.needsFull ==>
              && FrameOk(s.enc.shown) && s.enc.shown.w == f.w && s.enc.shown.h == f.h
              && s.enc.planes == FullConvert(cv, Rows(s.enc.shown)) && Link(s.enc.shown, f)
  {
    RunInv(cv, states, steps, i);
    assert Chain(states[i])[0] == states[i].phase.frame;
  }

  /** No frame is in anyone's hands, no damage waits, no full conversion is due. */
  predicate Quiet(s: State) {
    Trusted(s) && Held(s.phase) == [] && s.frames == [] && !s.loop.Offering? && s.comp.damage == []
  }

  /** In every reachable quiet state the YUV picture is the conversion of the canvas, at
      the current size; and the canvas is the redraw of the current scene exactly if it
      is truthful. */
  lemma QuietMeansCurrent(cv: Converter, states: seq<State>, steps: seq<Step>, i: nat)
    requires Run(cv, states, steps) && i <= |steps| && Quiet(states[i])
    ensures var s, c := states[i], states[i].comp;
            && s.enc.w == c.w && s.enc.h == c.h && |c.canvas| == Bytes(c.w, c.h)
            && s.enc.planes == FullConvert(cv, Rows(s.enc.shown.(w := c.w, h := c.h, data := c.canvas)))
            && (IsRedraw(c.scene, c.canvas, c.w, c.h) <==> Truthful(c))
  {
    RunInv(cv, states, steps, i);
    QuietIsConverted(cv, states[i]);
    var c := states[i].comp;
    if Truthful(c) {
      TruthfulIsRedraw(c);
    }
  }

  lemma QuietIsConverted(cv: Converter, s: State)
    requires PictureInv(cv, s) && Quiet(s)
    ensures var c := s.comp;
            && s.enc.w == c.w && s.enc.h == c.h && |c.canvas| == Bytes(c.w, c.h)
            && s.enc.planes == FullConvert(cv, Rows(s.enc.shown.(w := c.w, h := c.h, data := c.canvas)))
  {
    var c := s.comp;
    assert Chain(s) == [];
    var shown := s.enc.shown;
    forall r: nat | r < c.h
      ensures SameRow(s.accepted, c, r)
    {
      assert !RowDirty(c.damage, c.w, r);
    }
    assert SameRow(s.accepted, c, 0);
    assert Rows(shown) == Rows(shown.(w := c.w, h := c.h, data := c.canvas)) by {
      forall r: nat | r < c.h ensures Rows(shown)[r] == Row(c.canvas, c.w, c.h, r) {
        assert SameRow(s.accepted, c, r);
      }
    }
  }

  // ---------------------------------------------------------------- no lost update

  /** A row the next frame to be queued will report: in a band of a frame about to be
      offered, or else damaged. */
  ghost predicate Marked(s: State, r: nat) {
    if s.loop.Offering? then RowIn(s.loop.frame.damage, r) else RowDirty(s.comp.damage, s.comp.w, r)
  }

  /** Each row where the frame last queued differs from the canvas is marked, so the
      next frame reports it. */
  lemma DifferenceIsMarked(cv: Converter, states: seq<State>, steps: seq<Step>, i: nat, r: nat)
    requires Run(cv, states, steps) && i <= |steps|
    requires r < states[i].comp.h && !SameRow(states[i].accepted, states[i].comp, r)
    ensures Marked(states[i], r)
  {
    RunInv(cv, states, steps, i);
  }

  /** A frame dropped on a full queue leaves every row it reported damaged, and the
      state dirty unless it reported none. */
  lemma DropStaysDirty(cv: Converter, s: State, t: State)
    requires Next(cv, s, Offer, t) && |s.frames| >= FRAME_QUEUE
    ensures t.frames == s.frames && t.accepted == s.accepted
    ensures s.loop.frame.damage != [] ==> t.comp.damage != []
    ensures forall r: nat | 0 < s.comp.w && r < s.comp.h && Marked(s, r) :: Marked(t, r)
  {
    var bands := s.loop.frame.damage;
    ReaddBounded([], bands, s.comp.w, s.comp.h);
    forall r: nat | 0 < s.comp.w && r < s.comp.h && RowIn(bands, r) ensures RowDirty(t.comp.damage, s.comp.w, r) {
      ReaddRows(bands, s.comp.w, s.comp.h, r);
    }
  }

  /** Every picture queued is the canvas as last rendered, and from a truthful canvas the
      full redraw of the scene. */
  lemma QueuedFramesAreRedraws(cv: Converter, states: seq<State>, steps: seq<Step>, i: nat)
    requires Run(cv, states, steps) && i < |steps| && !steps[i].Advance?
    requires states[i + 1].frames != states[i].frames
    ensures |states[i + 1].frames| == |states[i].frames| + 1
    ensures var f, c := states[i + 1].frames[|states[i].frames|], states[i].comp;
            && states[i + 1].accepted == Some(f) && f.data == c.canvas && f.w == c.w && f.h == c.h
            && (IsRedraw(c.scene, f.data, f.w, f.h) <==> Truthful(c))
  {
    RunInv(cv, states, steps, i);
    OnlyOffersQueue(cv, states[i], steps[i], states[i + 1]);
    var c := states[i].comp;
    CarriedFits(states[i].accepted, c, states[i].loop.frame);
    if Truthful(c) {
      TruthfulIsRedraw(c);
    }
  }

  lemma OnlyOffersQueue(cv: Converter, s: State, step: Step, t: State)
    requires Next(cv, s, step, t) && !step.Advance? && t.frames != s.frames
    ensures step.Offer? && s.loop.Offering? && |t.frames| == |s.frames| + 1
    ensures var f := t.frames[|s.frames|]; t.accepted == Some(f) && SamePicture(f, s.loop.frame)
  {
    hide Repainted, Accumulate, Readd, Grown;
  }

  // ---------------------------------------------------------------- buffers

  /** The frame the capture loop holds, rendered and not yet offered. */
  function InHand(loop: Loop): seq<Frame> {
    if loop.Offering? then [loop.frame] else []
  }

  /** In how many places buffer `b` is: spare, on its way back, in the capture loop's
      hand, queued, or held by the encoder thread. */
  ghost function Copies(s: State, b: nat): nat {
    Count(s.spare, b) + Count(s.returned, b) + Count(Buffers(InHand(s.loop)), b)
    + Count(Buffers(s.frames), b) + Count(Buffers(Held(s.phase)), b)
  }

  /** How many buffers are alive. */
  function Alive(s: State): nat {
    |s.spare| + |s.returned| + |InHand(s.loop)| + |s.frames| + |Held(s.phase)|
  }

  function Count(bufs: seq<nat>, b: nat): nat {
    if bufs == [] then 0 else Count(bufs[1..], b) + if bufs[0] == b then 1 else 0
  }

  lemma {:induction false} CountConcat(x: seq<nat>, y: seq<nat>, b: nat)
    ensures Count(x + y, b) == Count(x, b) + Count(y, b)
  {
    if x == [] {
      assert x + y == y;
    } else {
      assert (x + y)[1..] == x[1..] + y;
      CountConcat(x[1..], y, b);
    }
  }

  lemma {:induction false} CountOne(f: Frame, b: nat)
    ensures Buffers([f]) == [f.buf] && Count([f.buf], b) == if f.buf == b then 1 else 0
  {
    assert Count([f.buf], b) == Count([], b) + if f.buf == b then 1 else 0;
  }

  lemma CountFrames(x: seq<Frame>, y: seq<Frame>, b: nat)
    ensures Count(Buffers(x + y), b) == Count(Buffers(x), b) + Count(Buffers(y), b)
  {
    assert Buffers(x + y) == Buffers(x) + Buffers(y);
    CountConcat(Buffers(x), Buffers(y), b);
  }

  /** Each buffer ever allocated is in at most one place, and at most three beyond the
      queue's capacity are alive. A tick that found nothing to recycle leaves room for
      the buffer it may allocate. */
  ghost predicate BufferInv(s: State) {
    && (forall b: nat :: Copies(s, b) <= if b < s.nextBuf then 1 else 0)
    && |s.frames| <= FRAME_QUEUE
    && Alive(s) <= FRAME_QUEUE + 3
    && ((s.loop.Asking? || s.loop.Drawing?) && s.spare == [] ==> Alive(s) <= FRAME_QUEUE + 2)
  }

  /** The encoder thread only moves buffers. */
  lemma AdvanceConserves(cv: Converter, s: State, planes: Planes, sent: bool, t: State, b: nat)
    requires AdvanceStep(cv, s, planes, sent, t)
    ensures Copies(t, b) == Copies(s, b) && Alive(t) == Alive(s) && |t.frames| <= |s.frames|
    ensures t.nextBuf == s.nextBuf && t.loop == s.loop && t.spare == s.spare
  {
    hide AdvanceStep, Count, Buffers;
    if s.phase.Dropping? || s.phase.Receiving? || s.phase.Skipping? {
      TakingConserves(cv, s, planes, sent, t, b);
    } else if s.phase.Swapping? || s.phase.Submitting? {
      ReturningConserves(cv, s, planes, sent, t, b);
    } else {
      RestConserves(cv, s, planes, sent, t, b);
    }
  }

  /** Steps that may take a frame off the queue. */
  lemma TakingConserves(cv: Converter, s: State, planes: Planes, sent: bool, t: State, b: nat)
    requires AdvanceStep(cv, s, planes, sent, t) && (s.phase.Dropping? || s.phase.Receiving? || s.phase.Skipping?)
    ensures Copies(t, b) == Copies(s, b) && Alive(t) == Alive(s) && |t.frames| <= |s.frames|
    ensures t.nextBuf == s.nextBuf && t.loop == s.loop && t.spare == s.spare
  {
    hide Sized, Count, Buffers;
    CountNothing(b);
    if s.frames != [] {
      CountHead(s.frames, b);
      CountReturn(s.returned, s.frames[0], b);
    }
    if s.phase.Skipping? {
      SkipConserves(s.phase.newest, s.frames, b);
    }
  }

  /** Steps that return a buffer. */
  lemma ReturningConserves(cv: Converter, s: State, planes: Planes, sent: bool, t: State, b: nat)
    requires AdvanceStep(cv, s, planes, sent, t) && (s.phase.Swapping? || s.phase.Submitting?)
    ensures Copies(t, b) == Copies(s, b) && Alive(t) == Alive(s) && |t.frames| <= |s.frames|
    ensures t.nextBuf == s.nextBuf && t.loop == s.loop && t.spare == s.spare
  {
    hide SubmitStep, Count, Buffers, TakeOver;
    if s.phase.Swapping? {
      SwapConserves(s, s.phase.stale, s.phase.newer, b);
    } else {
      SubmitMoves(cv, s, s.phase.frame, planes, sent, t);
      CountReturn(s.returned, s.phase.frame, b);
      CountNothing(b);
    }
  }

  lemma RestConserves(cv: Converter, s: State, planes: Planes, sent: bool, t: State, b: nat)
    requires AdvanceStep(cv, s, planes, sent, t) && (s.phase.Idle? || s.phase.Fitting? || s.phase.Steering?)
    ensures Copies(t, b) == Copies(s, b) && Alive(t) == Alive(s) && |t.frames| <= |s.frames|
    ensures t.nextBuf == s.nextBuf && t.loop == s.loop && t.spare == s.spare
  {
    hide Sized, Count, Buffers;
  }

  lemma SubmitMoves(cv: Converter, s: State, f: Frame, planes: Planes, sent: bool, t: State)
    requires SubmitStep(cv, s, f, planes, sent, t)
    ensures t.spare == s.spare && t.returned == s.returned + [f.buf] && t.loop == s.loop && t.frames == s.frames
    ensures t.phase == Idle && t.nextBuf == s.nextBuf
  {
    hide Converted, Viewed, Sized, Bytes;
  }

  lemma SkipConserves(newest: Frame, frames: seq<Frame>, b: nat)
    ensures frames != [] ==>
              Count(Buffers([newest, frames[0]]), b) + Count(Buffers(frames[1..]), b)
              == Count(Buffers([newest]), b) + Count(Buffers(frames), b)
  {
    if frames != [] {
      CountHead(frames, b);
      CountFrames([newest], [frames[0]], b);
      assert [newest, frames[0]] == [newest] + [frames[0]];
    }
  }

  lemma CountReturn(returned: seq<nat>, f: Frame, b: nat)
    ensures Count(returned + [f.buf], b) == Count(returned, b) + Count(Buffers([f]), b)
  {
    CountConcat(returned, [f.buf], b);
    CountOne(f, b);
  }

  lemma SwapConserves(s: State, stale: Frame, newer: Frame, b: nat)
    ensures Count(s.returned + [stale.buf], b) + Count(Buffers([TakeOver(stale, newer)]), b)
         == Count(s.returned, b) + Count(Buffers([stale, newer]), b)
  {
    assert [stale, newer] == [stale] + [newer];
    CountFrames([stale], [newer], b);
    CountOne(stale, b);
    CountOne(newer, b);
    CountOne(TakeOver(stale, newer), b);
    CountConcat(s.returned, [stale.buf], b);
  }

  lemma CountHead(fs: seq<Frame>, b: nat)
    requires fs != []
    ensures Count(Buffers(fs), b) == Count(Buffers([fs[0]]), b) + Count(Buffers(fs[1..]), b)
  {
    assert fs == [fs[0]] + fs[1..];
    CountFrames([fs[0]], fs[1..], b);
  }

  lemma CountNothing(b: nat)
    ensures Count([], b) == 0 && Buffers([]) == []
  {
  }

  /** Recycling moves a buffer to the spare ones. */
  lemma RecycleConserves(s: State, newClient: bool, b: nat)
    requires !s.loop.Offering?
    ensures Copies(Recycled(s, newClient), b) == Copies(s, b) && Alive(Recycled(s, newClient)) == Alive(s)
  {
    hide Count, Buffers;
    if s.returned != [] {
      CountConcat(s.spare, [s.returned[0]], b);
      CountConcat([s.returned[0]], s.returned[1..], b);
      assert s.returned == [s.returned[0]] + s.returned[1..];
    }
  }

  /** A render takes its buffer from the spare ones, or allocates one with none left. */
  lemma DrawConserves(s: State, canvas: seq<Byte>, bands: seq<Band>, b: nat)
    requires !s.loop.Offering?
    ensures var t, fresh_ := Drawn(s, canvas, bands), s.spare == [];
            && Copies(t, b) == Copies(s, b) + (if fresh_ && b == s.nextBuf then 1 else 0)
            && Alive(t) == Alive(s) + (if fresh_ then 1 else 0)
            && t.nextBuf == s.nextBuf + (if fresh_ then 1 else 0)
  {
    hide Count, Buffers;
    CountOne(Captured(s, canvas, bands), b);
    CountNothing(b);
    if s.spare != [] {
      var n := |s.spare| - 1;
      assert s.spare == s.spare[..n] + [s.spare[n]];
      CountConcat(s.spare[..n], [s.spare[n]], b);
    }
  }

  /** Offering a frame queues its buffer or, with the queue full, frees it. */
  lemma OfferConserves(s: State, b: nat)
    requires s.loop.Offering?
    ensures var t, dropped := Offered(s), |s.frames| >= FRAME_QUEUE;
            && Copies(t, b) + (if dropped && b == s.loop.frame.buf then 1 else 0) == Copies(s, b)
            && Alive(t) + (if dropped then 1 else 0) == Alive(s)
            && |t.frames| == |s.frames| + (if dropped then 0 else 1)
  {
    hide Count, Buffers, Readd;
    var frame := s.loop.frame.(asks := s.asked, serial := s.queued);
    CountOne(s.loop.frame, b);
    CountOne(frame, b);
    CountNothing(b);
    CountFrames(s.frames, [frame], b);
  }

  /** Neither requests nor changes of the scene touch a buffer. */
  lemma OthersConserve(cv: Converter, s: State, step: Step, t: State)
    requires Next(cv, s, step, t) && !step.Recycle? && !step.Draw? && !step.Offer? && !step.Advance?
    ensures t.spare == s.spare && t.returned == s.returned && t.frames == s.frames && t.phase == s.phase && t.nextBuf == s.nextBuf
    ensures InHand(t.loop) == InHand(s.loop) == []  || t.loop == s.loop
    ensures (t.loop.Asking? || t.loop.Drawing?) ==> (s.loop.Asking? || s.loop.Drawing?)
  {
    hide Accumulate, Grown;
  }

  lemma NextBuffers(cv: Converter, s: State, step: Step, t: State)
    requires BufferInv(s) && Next(cv, s, step, t)
    ensures BufferInv(t)
  {
    hide Repainted, Drawn, Recycled, Offered, AdvanceStep, Count, Buffers;
    forall b: nat
      ensures Copies(t, b) <= (if b < t.nextBuf then 1 else 0) && |t.frames| <= FRAME_QUEUE && Alive(t) <= FRAME_QUEUE + 3
      ensures (t.loop.Asking? || t.loop.Drawing?) && t.spare == [] ==> Alive(t) <= FRAME_QUEUE + 2
    {
      assert Copies(s, b) <= (if b < s.nextBuf then 1 else 0);
      match step {
        case Recycle(newClient) =>
          RecycleConserves(s, newClient, b);
          RecycleLeavesRoom(s, newClient);
        case Draw(canvas, bands) =>
          DrawConserves(s, canvas, bands, b);
          assert t.loop.Offering? && t.frames == s.frames by { DrawnFields(s, canvas, bands); }
        case Offer =>
          OfferConserves(s, b);
          assert t.loop.Waiting? && t.nextBuf == s.nextBuf by { OfferedFields(s); }
        case Advance(planes, sent) =>
          AdvanceConserves(cv, s, planes, sent, t, b);
        case _ =>
          OthersConserve(cv, s, step, t);
      }
    }
    assert Copies(t, 0) <= 1;
  }

  lemma RecycleLeavesRoom(s: State, newClient: bool)
    requires s.loop.Recycling? && |s.frames| <= FRAME_QUEUE
    ensures var t := Recycled(s, newClient);
            && t.frames == s.frames && t.nextBuf == s.nextBuf && !t.loop.Drawing?
            && (t.loop.Asking? && t.spare == [] ==> Alive(t) <= FRAME_QUEUE + 2)
  {
  }

  lemma DrawnFields(s: State, canvas: seq<Byte>, bands: seq<Band>)
    ensures Drawn(s, canvas, bands).loop.Offering? && Drawn(s, canvas, bands).frames == s.frames
  {
  }

  lemma OfferedFields(s: State)
    requires s.loop.Offering?
    ensures Offered(s).loop.Waiting? && Offered(s).nextBuf == s.nextBuf
  {
  }

  /** Over any run every frame buffer is in at most one place, and the number alive
      never exceeds the queue's capacity plus three. */
  lemma {:induction false} BuffersBounded(cv: Converter, states: seq<State>, steps: seq<Step>, i: nat)
    requires Run(cv, states, steps) && i <= |steps|
    ensures forall b: nat :: Copies(states[i], b) <= 1
    ensures Alive(states[i]) <= FRAME_QUEUE + 3 && BufferInv(states[i])
  {
    hide Next, Count;
    if i == 0 {
      forall b: nat ensures Copies(states[0], b) == 0 {
        CountNothing(b);
      }
    } else {
      BuffersBounded(cv, states, steps, i - 1);
      NextBuffers(cv, states[i - 1], steps[i - 1], states[i]);
    }
    forall b: nat ensures Copies(states[i], b) <= 1 {
      assert Copies(states[i], b) <= if b < states[i].nextBuf then 1 else 0;
    }
  }

  // ---------------------------------------------------------------- keyframes

  function Asks(control: seq<Control>): nat {
    if control == [] then 0 else Asks(control[1..]) + if control[0].ForceKeyframe? then 1 else 0
  }

  lemma {:induction false} AsksAppend(control: seq<Control>, m: Control)
    ensures Asks(control + [m]) == Asks(control) + if m.ForceKeyframe? then 1 else 0
  {
    if control != [] {
      assert (control + [m])[1..] == control[1..] + [m];
      AsksAppend(control[1..], m);
    }
  }

  /** The part of the invariant about the counters alone. */
  ghost predicate Counted(s: State) {
    && s.drained + Asks(s.control) == s.asked
    && s.served <= s.drained
    && (s.force <==> s.served < s.drained)
    && s.forced <= s.served
  }

  /** No frame on its way was queued after more requests than were queued; one being
      submitted, after no more than were received. */
  ghost predicate FramesCounted(s: State) {
    && (forall i | 0 <= i < |s.frames| :: s.frames[i].asks <= s.asked)
    && match s.phase
       case Skipping(newest) => newest.asks <= s.asked
       case Swapping(stale, newer) => newer.asks <= s.asked
       case Fitting(frame) => frame.asks <= s.asked
       case Steering(frame) => frame.asks <= s.asked
       case Submitting(frame) => frame.asks <= s.drained
       case _ => true
  }

  ghost predicate KeyInv(s: State) {
    Counted(s) && FramesCounted(s)
  }

  lemma ReadControlKeys(s: State)
    requires KeyInv(s) && s.control != [] && !s.phase.Submitting?
    ensures KeyInv(ReadControl(s))
  {
  }

  lemma SubmitKeys(cv: Converter, s: State, f: Frame, planes: Planes, sent: bool, t: State)
    requires KeyInv(s) && SubmitStep(cv, s, f, planes, sent, t)
    ensures KeyInv(t)
  {
    hide Converted, Viewed, Sized, Asks, Bytes;
  }

  lemma AdvanceKeys(cv: Converter, s: State, planes: Planes, sent: bool, t: State)
    requires KeyInv(s) && AdvanceStep(cv, s, planes, sent, t)
    ensures KeyInv(t)
  {
    if s.phase.Submitting? {
      SubmitKeys(cv, s, s.phase.frame, planes, sent, t);
    } else if s.control != [] && (s.phase.Idle? || s.phase.Steering?) {
      ReadControlKeys(s);
    } else {
      LookKeys(cv, s, planes, sent, t);
    }
  }

  lemma LookKeys(cv: Converter, s: State, planes: Planes, sent: bool, t: State)
    requires KeyInv(s) && AdvanceStep(cv, s, planes, sent, t)
    requires !s.phase.Submitting? && !(s.control != [] && (s.phase.Idle? || s.phase.Steering?))
    ensures KeyInv(t)
  {
    hide SubmitStep, ReadControl, Sized;
    assert Asks([]) == 0;
    hide Asks;
    assert t.control == s.control && t.asked == s.asked && t.drained == s.drained;
  }

  lemma RequestKeys(s: State, due: bool)
    requires KeyInv(s)
    ensures KeyInv(Requested(s, due))
  {
    AsksAppend(s.control, ForceKeyframe);
  }

  lemma OfferKeys(s: State)
    requires KeyInv(s) && s.loop.Offering?
    ensures KeyInv(Offered(s))
  {
    hide Asks, Readd;
  }

  lemma NextKeys(cv: Converter, s: State, step: Step, t: State)
    requires KeyInv(s) && Next(cv, s, step, t)
    ensures KeyInv(t)
  {
    hide DrawStep, AdvanceStep, Offered, Requested, Grown, Accumulate, Asks;
    match step {
      case Request(due) => RequestKeys(s, due);
      case Draw(canvas, bands) => DrawKeys(s, canvas, bands, t);
      case Offer => OfferKeys(s);
      case Advance(planes, sent) => AdvanceKeys(cv, s, planes, sent, t);
      case Ask => AsksAppend(s.control, ForceKeyframe);
      case ChangeRate(bps) => AsksAppend(s.control, ChangeBitrate(bps));
      case _ =>
    }
  }

  lemma DrawKeys(s: State, canvas: seq<Byte>, bands: seq<Band>, t: State)
    requires KeyInv(s) && DrawStep(s, canvas, bands, t)
    ensures KeyInv(t)
  {
    hide Repainted, Asks;
  }

  lemma {:induction false} RunKeys(cv: Converter, states: seq<State>, steps: seq<Step>, i: nat)
    requires Run(cv, states, steps) && i <= |steps|
    ensures KeyInv(states[i])
  {
    if i > 0 {
      hide KeyInv, Next;
      RunKeys(cv, states, steps, i - 1);
      NextKeys(cv, states[i - 1], steps[i - 1], states[i]);
    }
  }

  /** The encoder thread finds its control queue empty for the last time before it
      submits the frame it holds. */
  predicate LastLook(s: State, step: Step) {
    step.Advance? && s.phase.Steering? && s.control == []
  }

  /** Every submission is preceded by such a look, and receives nothing after it. */
  lemma {:induction false} LookedBefore(cv: Converter, states: seq<State>, steps: seq<Step>, i: nat) returns (j: nat)
    requires Run(cv, states, steps) && i <= |steps| && states[i].phase.Submitting?
    ensures j < i && LastLook(states[j], steps[j]) && states[j].phase.frame == states[i].phase.frame
    ensures states[i].drained == states[j].asked
    decreases i
  {
    assert i > 0;
    var s, step, t := states[i - 1], steps[i - 1], states[i];
    RunKeys(cv, states, steps, i - 1);
    LookOrWait(cv, s, step, t);
    if LastLook(s, step) {
      j := i - 1;
      assert Asks(s.control) == 0;
    } else {
      j := LookedBefore(cv, states, steps, i - 1);
    }
  }

  lemma LookOrWait(cv: Converter, s: State, step: Step, t: State)
    requires Next(cv, s, step, t) && t.phase.Submitting?
    ensures t.drained == s.drained
    ensures if LastLook(s, step) then t.phase.frame == s.phase.frame else t.phase == s.phase
  {
    hide DrawStep, SubmitStep, Repainted, Sized, Grown, Accumulate;
    if step.Advance? && s.phase.Submitting? {
      SubmitMoves(cv, s, s.phase.frame, step.planes, step.sent, t);
    } else if step.Draw? {
      DrawnPhase(s, step.canvas, step.bands, t);
    }
  }

  lemma DrawnPhase(s: State, canvas: seq<Byte>, bands: seq<Band>, t: State)
    requires DrawStep(s, canvas, bands, t)
    ensures t.phase == s.phase && t.drained == s.drained
  {
    hide Repainted;
  }

  /** Every submission honours exactly the keyframe requests queued before the encoder's
      last look at its control queue, among them all queued before its own frame was; it
      is forced exactly when one of them is still unserved, several pending ones force
      one frame, and a forced frame is converted in full. */
  lemma SubmissionServesAllAsks(cv: Converter, states: seq<State>, steps: seq<Step>, i: nat) returns (j: nat)
    requires Run(cv, states, steps) && i < |steps| && Submits(states[i], steps[i])
    ensures j < i && LastLook(states[j], steps[j]) && states[j].phase.frame == states[i].phase.frame
    ensures var s, t, f := states[i], states[i + 1], states[i].phase.frame;
            && t.served == states[j].asked && f.asks <= t.served
            && t.forced == (if s.served < t.served then s.forced + 1 else s.forced)
            && t.forced <= t.served
            && (s.served < t.served ==> FrameOk(f) && t.enc.planes == FullConvert(cv, Rows(f)))
  {
    RunKeys(cv, states, steps, i);
    RunKeys(cv, states, steps, i + 1);
    EverySubmissionIsExact(cv, states, steps, i);
    j := LookedBefore(cv, states, steps, i);
  }

  /** Requests are served only by submissions, so between two submissions none is
      served twice and none is lost. */
  lemma ServedOnlyBySubmission(cv: Converter, s: State, step: Step, t: State)
    requires Next(cv, s, step, t) && !Submits(s, step)
    ensures t.served == s.served && t.forced == s.forced && s.asked <= t.asked
  {
    hide Repainted, SubmitStep, Sized, Grown, Accumulate;
  }

  // ---------------------------------------------------------------- requests and frames

  /** Every frame on its way was queued before now; those queued from the `n`-th on, with
      at least `asked` requests queued before them. */
  ghost predicate AsksSince(s: State, n: nat, asked: nat) {
    && (forall i | 0 <= i < |s.frames| :: Since(s.frames[i], s.queued, n, asked))
    && match s.phase
       case Skipping(newest) => Since(newest, s.queued, n, asked)
       case Swapping(stale, newer) => Since(newer, s.queued, n, asked)
       case Fitting(frame) => Since(frame, s.queued, n, asked)
       case Steering(frame) => Since(frame, s.queued, n, asked)
       case Submitting(frame) => Since(frame, s.queued, n, asked)
       case _ => true
  }

  predicate Since(f: Frame, queued: nat, n: nat, asked: nat) {
    f.serial < queued && (f.serial >= n ==> f.asks >= asked)
  }

  lemma NextSince(cv: Converter, s: State, step: Step, t: State, n: nat, asked: nat)
    requires Next(cv, s, step, t) && AsksSince(s, n, asked) && s.asked >= asked
    ensures AsksSince(t, n, asked) && t.asked >= asked && t.queued >= s.queued
  {
    if step.Advance? {
      AdvanceSince(cv, s, step.planes, step.sent, t, n, asked);
    } else if step.Offer? {
      OfferSince(s, n, asked);
    } else {
      OthersSince(cv, s, step, t, n, asked);
    }
  }

  lemma AdvanceSince(cv: Converter, s: State, planes: Planes, sent: bool, t: State, n: nat, asked: nat)
    requires AdvanceStep(cv, s, planes, sent, t) && AsksSince(s, n, asked)
    ensures AsksSince(t, n, asked) && t.asked == s.asked && t.queued == s.queued
  {
    hide SubmitStep, Sized;
    if s.phase.Submitting? {
      SubmitSince(cv, s, s.phase.frame, planes, sent, t);
    }
  }

  lemma SubmitSince(cv: Converter, s: State, f: Frame, planes: Planes, sent: bool, t: State)
    requires SubmitStep(cv, s, f, planes, sent, t)
    ensures t.frames == s.frames && t.phase == Idle && t.asked == s.asked && t.queued == s.queued
  {
    hide Converted, Viewed, Sized, Bytes;
  }

  lemma OfferSince(s: State, n: nat, asked: nat)
    requires s.loop.Offering? && AsksSince(s, n, asked) && s.asked >= asked
    ensures var t := Offered(s); AsksSince(t, n, asked) && t.asked == s.asked && t.queued >= s.queued
  {
    hide Readd;
  }

  lemma OthersSince(cv: Converter, s: State, step: Step, t: State, n: nat, asked: nat)
    requires Next(cv, s, step, t) && !step.Advance? && !step.Offer? && AsksSince(s, n, asked)
    ensures AsksSince(t, n, asked) && t.asked >= s.asked && t.queued == s.queued
  {
    hide Repainted, Grown, Accumulate;
  }

  lemma {:induction false} RunSince(cv: Converter, states: seq<State>, steps: seq<Step>, i: nat)
    requires Run(cv, states, steps) && i <= |steps|
    ensures AsksSince(states[i], states[i].queued, states[i].asked)
  {
    hide Next;
    if i > 0 {
      RunSince(cv, states, steps, i - 1);
      var s, t := states[i - 1], states[i];
      Weaken(s, s.queued, s.asked, 0);
      NextSince(cv, s, steps[i - 1], t, s.queued, 0);
      Weaken(t, s.queued, 0, t.asked);
    }
  }

  /** With the bound on serials alone, nothing is said of frames yet to come. */
  lemma Weaken(s: State, n: nat, asked: nat, any: nat)
    requires AsksSince(s, n, asked)
    ensures AsksSince(s, s.queued, any)
  {
  }

  lemma {:induction false} StaysSince(cv: Converter, states: seq<State>, steps: seq<Step>, k: nat, i: nat)
    requires Run(cv, states, steps) && k <= i <= |steps|
    ensures AsksSince(states[i], states[k].queued, states[k].asked)
  {
    RunSince(cv, states, steps, k);
    AskedGrows(cv, states, steps, k, i);
    hide Next, AsksSince;
    if k < i {
      StaysSince(cv, states, steps, k, i - 1);
      AskedGrows(cv, states, steps, k, i - 1);
      NextSince(cv, states[i - 1], steps[i - 1], states[i], states[k].queued, states[k].asked);
    }
  }

  lemma {:induction false} AskedGrows(cv: Converter, states: seq<State>, steps: seq<Step>, k: nat, i: nat)
    requires Run(cv, states, steps) && k <= i <= |steps|
    ensures states[k].asked <= states[i].asked
  {
    hide Next;
    if k < i {
      AskedGrows(cv, states, steps, k, i - 1);
      OnlyMoreAsked(cv, states[i - 1], steps[i - 1], states[i]);
    }
  }

  lemma OnlyMoreAsked(cv: Converter, s: State, step: Step, t: State)
    requires Next(cv, s, step, t)
    ensures s.asked <= t.asked
  {
    if step.Advance? && s.phase.Submitting? {
      SubmitSince(cv, s, s.phase.frame, step.planes, step.sent, t);
    }
    hide Repainted, SubmitStep, Sized, Grown, Accumulate;
  }

  /** Every request queued by the time a frame was queued is served by the first
      submission of that frame or of any later one, be the frame itself skipped, or
      drained for a resize, or submitted. */
  lemma RequestsBeforeAFrameAreServed(cv: Converter, states: seq<State>, steps: seq<Step>, k: nat, i: nat)
    requires Run(cv, states, steps) && k <= i < |steps| && Submits(states[i], steps[i])
    requires states[i].phase.frame.serial >= states[k].queued
    ensures states[i + 1].served >= states[k].asked
  {
    StaysSince(cv, states, steps, k, i);
    var j := SubmissionServesAllAsks(cv, states, steps, i);
  }
}
