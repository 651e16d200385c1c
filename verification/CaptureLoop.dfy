/** The capture loop, imperatively: recycle buffers, take the damage, ask for a keyframe,
    render, offer. Each channel operation is one step of the pipeline machine in whatever
    state it finds the channels; an uninterrupted tick is a run of it. */
module CaptureLoop {
  import opened Numbers
  import opened Options
  import opened Compose
  import opened Damage
  import opened Compositor
  import opened Convert
  import opened Frames
  import opened Encoder
  import opened Pipeline
  import Pacing

  /** Rounds down to even within request and limit; below 16 is refused. */
  function Sanitize(request: (nat, nat), limit: (nat, nat)): (size: Option<(nat, nat)>)
    ensures size.Some? ==> Acceptable(size.value.0, size.value.1, request, limit)
  {
    var w := ClearLowBit(Min(request.0, limit.0));
    var h := ClearLowBit(Min(request.1, limit.1));
    if w < 16 || h < 16 then None else Some((w, h))
  }

  predicate Acceptable(w: nat, h: nat, request: (nat, nat), limit: (nat, nat)) {
    w % 2 == 0 && h % 2 == 0 && 16 <= w <= request.0 && 16 <= h <= request.1 && w <= limit.0 && h <= limit.1
  }

  /** The size is the largest acceptable one; a request is refused only if there is none. */
  lemma SanitizeIsLargest(request: (nat, nat), limit: (nat, nat), w: nat, h: nat)
    requires Acceptable(w, h, request, limit)
    ensures var size := Sanitize(request, limit);
            size.Some? && w <= size.value.0 && h <= size.value.1
  {
  }

  lemma SanitizedFits(request: (nat, nat), limit: (nat, nat))
    requires SizeOk(limit.0, limit.1) && Sanitize(request, limit).Some?
    ensures SizeOk(Sanitize(request, limit).value.0, Sanitize(request, limit).value.1)
  {
    SmallerFits(Sanitize(request, limit).value, limit);
  }

  lemma SmallerFits(size: (nat, nat), limit: (nat, nat))
    requires SizeOk(limit.0, limit.1) && 0 < size.0 <= limit.0 && 0 < size.1 <= limit.1
    ensures SizeOk(size.0, size.1)
  {
    assert size.0 * size.1 <= size.0 * limit.1;
    assert size.0 * limit.1 <= limit.0 * limit.1;
  }

  class RenderLoop {
    const frameInterval: nat
    const keyframeInterval: nat
    const state: CompositorState
    /** Channels shared with the encoder thread. */
    var frames: seq<Frame>
    var control: seq<Control>
    var returned: seq<nat>
    var resize: Option<(nat, nat)>
    var spareBuffers: seq<nat>
    var nextBuffer: nat
    var nextFrame: int
    var lastCapture: int
    var ticksSinceRender: nat
    var keyframePending: bool
    var droppedFrames: nat
    /** Keyframe requests and frames queued so far, history counts. */
    var asked: nat
    var queued: nat

    /** `canBackdate` says whether the clock reaches one interval back. */
    constructor (state: CompositorState, frameInterval: nat, keyframeInterval: nat, now: int, canBackdate: bool)
      ensures this.state == state && this.frameInterval == frameInterval && this.keyframeInterval == keyframeInterval
      ensures frames == [] && control == [] && returned == [] && spareBuffers == [] && nextBuffer == 0 && asked == 0 && queued == 0 && resize == None
      ensures nextFrame == now + frameInterval && lastCapture == if canBackdate then now - frameInterval else now
      ensures ticksSinceRender == 0 && !keyframePending && droppedFrames == 0
    {
      this.state, this.frameInterval, this.keyframeInterval := state, frameInterval, keyframeInterval;
      frames, control, returned, spareBuffers, nextBuffer, asked, queued, resize := [], [], [], [], 0, 0, 0, None;
      nextFrame, lastCapture := now + frameInterval, if canBackdate then now - frameInterval else now;
      ticksSinceRender, keyframePending, droppedFrames := 0, false, 0;
    }

    ghost function Pace(): Pacing.Pace
      reads this
    {
      Pacing.Pace(nextFrame, lastCapture)
    }

    /** The compositor's part of a machine state; what a tick has taken to repaint is
        still damage until it is rendered. */
    ghost function Comp(): Pipeline.Comp
      reads state, state.canvas
    {
      Pipeline.Comp(state.width, state.height, state.space, state.damage + state.repaintRegion, state.canvas[..])
    }

    /** The machine state `s` describes this loop, its channels and its compositor. */
    ghost predicate Describes(s: State)
      reads this, state, state.canvas
    {
      && s.comp == Comp() && s.frames == frames && s.control == control
      && s.returned == returned && s.spare == spareBuffers && s.nextBuf == nextBuffer && s.asked == asked
      && s.queued == queued && s.resize == resize
    }

    /** The canvas shows the scene outside the damage. */
    ghost predicate Truthful()
      reads state, state.canvas
    {
      Pipeline.Truthful(Comp())
    }

    /** Between ticks nothing is stashed; from the decision to render until the render
        all damage is. */
    ghost predicate Valid(loop: Loop)
      reads this, state
    {
      && state.Valid()
      && (loop.Asking? || loop.Drawing? ==> state.damage == [])
      && (loop.Waiting? || loop.Recycling? || loop.Offering? ==> state.repaintRegion == [])
    }

    /** A requested resize: refused, or the compositor and the encoder's channel get the
        largest even size within request and limit, as one step of the machine. */
    method HandleResize(request: (nat, nat), limit: (nat, nat), ghost s: State) returns (ok: bool, ghost t: State)
      requires Valid(s.loop) && s.loop.Waiting? && Describes(s) && SizeOk(limit.0, limit.1)
      modifies this`resize, state`width, state`height, state`damage
      ensures Valid(t.loop) && Describes(t)
      ensures ok <==> Sanitize(request, limit).Some?
      ensures if ok then (state.width, state.height) == Sanitize(request, limit).value && resize == Sanitize(request, limit)
                         && forall cv :: Next(cv, s, Pipeline.Resize(state.width, state.height), t)
              else t == s
    {
      hide Shows, Accumulate, Bounded, WellFormed;
      t := s;
      var size := Sanitize(request, limit);
      ok := size.Some?;
      if ok {
        var (w, h) := size.value;
        SanitizedFits(request, limit);
        assert state.damage + state.repaintRegion == state.damage;
        state.ResizeOutput(w, h);
        assert state.damage + state.repaintRegion == state.damage;
        resize := Some((w, h));
        t := s.(comp := Damaged(s.comp.(w := w, h := h), Full(w, h)), resize := Some((w, h)));
      }
    }

    /** One look at the return channel. */
    method RecycleOne(ghost s: State) returns (got: bool, ghost t: State)
      requires Valid(s.loop) && s.loop.Recycling? && Describes(s)
      modifies this`returned, this`spareBuffers
      ensures Valid(t.loop) && Describes(t) && t.loop.Recycling?
      ensures got == (old(returned) != []) && |returned| == |old(returned)| - (if got then 1 else 0)
      ensures if got then forall cv, n :: Next(cv, s, Recycle(n), t) else t == s
    {
      got := returned != [];
      t := s;
      if got {
        spareBuffers, returned := spareBuffers + [returned[0]], returned[1..];
        t := Recycled(s, false);
      }
    }

    /** The return channel was found empty: the damage is taken, and the tick goes on if
        there is any or a client is new. */
    method TakeWork(newClient: bool, ghost s: State) returns (work: bool, ghost t: State)
      requires Valid(s.loop) && s.loop.Recycling? && Describes(s) && returned == []
      modifies this`keyframePending, this`ticksSinceRender, state`damage, state`repaintRegion
      ensures Valid(t.loop) && Describes(t) && forall cv :: Next(cv, s, Recycle(newClient), t)
      ensures work == (old(state.damage) != [] || newClient) && (if work then t.loop.Asking? else t.loop.Waiting?)
      ensures keyframePending == (old(keyframePending) || old(ticksSinceRender) >= keyframeInterval)
      ensures ticksSinceRender == old(ticksSinceRender) + if work then 0 else 1
    {
      hide Shows, Bounded, WellFormed;
      assert state.damage + state.repaintRegion == state.damage;
      var screenDirty := state.TakeDirty();
      assert state.damage + state.repaintRegion == state.repaintRegion;
      if ticksSinceRender >= keyframeInterval {
        keyframePending := true;
      }
      work := screenDirty || newClient;
      if !work {
        ticksSinceRender := ticksSinceRender + 1;
      }
      t := Recycled(s, newClient);
    }

    /** Queues a keyframe request if one is pending and there is room. */
    method RequestKeyframe(ghost s: State) returns (ghost t: State)
      requires Valid(s.loop) && s.loop.Asking? && Describes(s)
      modifies this`control, this`keyframePending, this`asked
      ensures Valid(t.loop) && Describes(t) && t.loop.Drawing? && forall cv :: Next(cv, s, Request(old(keyframePending)), t)
      ensures !keyframePending
      ensures var due := old(keyframePending) && |old(control)| < CONTROL_QUEUE;
              control == old(control) + (if due then [ForceKeyframe] else []) && asked == old(asked) + if due then 1 else 0
    {
      t := Requested(s, keyframePending);
      if keyframePending {
        if |control| < CONTROL_QUEUE {
          control := control + [ForceKeyframe];
          asked := asked + 1;
        }
        keyframePending := false;
      }
    }

    /** Renders into a spare buffer, or a new one with none left. */
    method Draw(ghost s: State) returns (frame: Frame, ghost t: State)
      requires Valid(s.loop) && s.loop.Drawing? && Describes(s)
      modifies this`spareBuffers, this`nextBuffer, state`canvas, state`repaintRegion, state`lastRepaintRects, state.canvas
      ensures Valid(t.loop) && Describes(t) && t.loop == Offering(frame)
      ensures forall cv :: Next(cv, s, Pipeline.Draw(frame.data, frame.damage), t)
      ensures frame.data == state.canvas[..] && Rendered(s.comp.scene, s.comp.w, s.comp.h, s.comp.canvas, s.comp.damage, frame.data, frame.damage)
      ensures old(Truthful()) && WellFormed(state.space) ==> IsRedraw(state.space, frame.data, state.width, state.height)
    {
      hide Composed, Repainted, Shows, IsRedraw, Bounded, WellFormed, Readd, Accumulate, AdvanceStep, SubmitStep;
      assert state.damage + state.repaintRegion == state.repaintRegion;
      var buf;
      if spareBuffers == [] {
        buf, nextBuffer := nextBuffer, nextBuffer + 1;
      } else {
        buf := spareBuffers[|spareBuffers| - 1];
        spareBuffers := spareBuffers[..|spareBuffers| - 1];
      }
      var output := state.Render();
      var bands := state.TakeRepaintRects();
      frame := Frame(state.width, state.height, output, bands, buf, asked, queued);
      t := Drawn(s, output, bands);
    }

    /** Offers the frame to the encoder; on a full queue it is dropped and its bands are
        damage again. */
    method Offer(frame: Frame, now: int, ghost s: State) returns (accepted: bool, ghost t: State)
      requires Valid(s.loop) && s.loop == Offering(frame) && Describes(s) && s.comp.damage == []
      modifies this`frames, this`queued, this`lastCapture, this`ticksSinceRender, this`droppedFrames, state`damage
      ensures Valid(t.loop) && Describes(t) && t.loop.Waiting? && forall cv :: Next(cv, s, Pipeline.Offer, t)
      ensures accepted == (|old(frames)| < FRAME_QUEUE)
      ensures frames == old(frames) + if accepted then [frame.(asks := asked, serial := old(queued))] else []
      ensures lastCapture == if accepted then now else old(lastCapture)
      ensures ticksSinceRender == if accepted then 0 else old(ticksSinceRender) + 1
      ensures droppedFrames == old(droppedFrames) + if accepted then 0 else 1
    {
      hide Shows, Bounded, WellFormed, Readd, Accumulate, AdvanceStep, SubmitStep;
      assert state.damage == [] by { assert |state.damage| <= |state.damage + state.repaintRegion|; }
      t := Offered(s);
      accepted := |frames| < FRAME_QUEUE;
      if accepted {
        frames := frames + [frame.(asks := asked, serial := queued)];
        queued := queued + 1;
        ticksSinceRender := 0;
        lastCapture := now;
      } else {
        state.ReaddDamage(frame.damage);
        assert state.damage + state.repaintRegion == state.damage;
        droppedFrames := droppedFrames + 1;
        ticksSinceRender := ticksSinceRender + 1;
      }
    }

    /** Advances the periodic deadline by one interval, resyncing after a stall. */
    method AdvanceDeadline(now: int)
      modifies this`nextFrame
      ensures nextFrame == Pacing.NextDeadline(old(nextFrame), now, frameInterval)
    {
      nextFrame := nextFrame + frameInterval;
      if nextFrame < now {
        nextFrame := now + frameInterval;
      }
    }

    /** Recycling ends when the channel is found empty. */
    method RecycleAll(cv: Converter, ghost s: State) returns (ghost t: State)
      requires Valid(s.loop) && s.loop.Recycling? && Describes(s)
      modifies this`returned, this`spareBuffers
      ensures Valid(t.loop) && Describes(t) && t.loop.Recycling? && returned == [] && Reaches(cv, ByLoop, s, t)
    {
      hide Shows, Bounded, WellFormed, Reaches;
      t := s;
      Stays(cv, ByLoop, s);
      var got := true;
      while got
        invariant Valid(t.loop) && Describes(t) && t.loop.Recycling? && Reaches(cv, ByLoop, s, t)
        invariant !got ==> returned == []
        decreases |returned|, got
      {
        ghost var u := t;
        got, t := RecycleOne(u);
        if got {
          OneStep(cv, ByLoop, u, Recycle(false), t);
          Onward(cv, ByLoop, s, u, t);
        }
      }
    }

    /** The part of a tick that asks, renders and offers. */
    method Produce(cv: Converter, now: int, ghost s: State) returns (accepted: bool, ghost t: State)
      requires Valid(s.loop) && s.loop.Asking? && Describes(s)
      modifies this`frames, this`queued, this`control, this`spareBuffers, this`nextBuffer, this`asked, this`lastCapture
      modifies this`ticksSinceRender, this`keyframePending, this`droppedFrames, state, state.canvas
      ensures Valid(t.loop) && Describes(t) && t.loop.Waiting? && Reaches(cv, ByLoop, s, t)
      ensures accepted == (|old(frames)| < FRAME_QUEUE) && !keyframePending
      ensures var due := old(keyframePending) && |old(control)| < CONTROL_QUEUE;
              control == old(control) + (if due then [ForceKeyframe] else []) && asked == old(asked) + if due then 1 else 0
      ensures accepted ==> |frames| == |old(frames)| + 1 && frames[|old(frames)|].asks == asked
      ensures lastCapture == if accepted then now else old(lastCapture)
      ensures ticksSinceRender == if accepted then 0 else old(ticksSinceRender) + 1
    {
      hide Rendered, Shows, IsRedraw, Bounded, WellFormed, Next, Reaches;
      ghost var drawing := RequestKeyframe(s);
      OneStep(cv, ByLoop, s, Request(old(keyframePending)), drawing);
      var frame;
      ghost var offering;
      frame, offering := Draw(drawing);
      OneStep(cv, ByLoop, drawing, Pipeline.Draw(frame.data, frame.damage), offering);
      Onward(cv, ByLoop, s, drawing, offering);
      DrawnIsClean(cv, drawing, frame, offering);
      accepted, t := Offer(frame, now, offering);
      OneStep(cv, ByLoop, offering, Pipeline.Offer, t);
      Onward(cv, ByLoop, s, offering, t);
    }

    /** One due tick, uninterrupted: a run of the machine from waiting to waiting. */
    method Tick(cv: Converter, now: int, newClient: bool, ghost s: State) returns (accepted: bool, ghost t: State)
      requires Valid(s.loop) && s.loop.Waiting? && Describes(s)
      modifies this`frames, this`queued, this`control, this`returned, this`spareBuffers, this`nextBuffer, this`asked, this`lastCapture
      modifies this`ticksSinceRender, this`keyframePending, this`droppedFrames, state, state.canvas
      ensures Valid(t.loop) && Describes(t) && t.loop.Waiting? && Reaches(cv, ByLoop, s, t)
      ensures var work := old(state.damage) != [] || newClient;
              && accepted == (work && |old(frames)| < FRAME_QUEUE)
              && keyframePending == (!work && (old(keyframePending) || old(ticksSinceRender) >= keyframeInterval))
              && ticksSinceRender == if accepted then 0 else old(ticksSinceRender) + 1
      ensures var work := old(state.damage) != [] || newClient;
              var due := work && (old(keyframePending) || old(ticksSinceRender) >= keyframeInterval) && |old(control)| < CONTROL_QUEUE;
              && control == old(control) + (if due then [ForceKeyframe] else []) && asked == old(asked) + (if due then 1 else 0)
              && (accepted ==> |frames| == |old(frames)| + 1 && frames[|old(frames)|].asks == asked)
      ensures lastCapture == if accepted then now else old(lastCapture)
    {
      hide Rendered, Shows, IsRedraw, Bounded, WellFormed, Next, Reaches;
      ghost var recycling := s.(loop := Recycling);
      Begins(cv, s);
      ghost var recycled := RecycleAll(cv, recycling);
      Onward(cv, ByLoop, s, recycling, recycled);
      var work;
      work, t := TakeWork(newClient, recycled);
      OneStep(cv, ByLoop, recycled, Recycle(newClient), t);
      Onward(cv, ByLoop, s, recycled, t);
      accepted := false;
      if work {
        ghost var asking := t;
        accepted, t := Produce(cv, now, asking);
        Onward(cv, ByLoop, s, asking, t);
      }
    }

    /** One turn of the loop: whether a tick is due, and how pacing moves on. */
    method Turn(cv: Converter, now: int, newClient: bool, ghost s: State) returns (turn: Pacing.Turn, ghost t: State)
      requires Valid(s.loop) && s.loop.Waiting? && Describes(s)
      modifies this, state, state.canvas
      ensures Valid(t.loop) && Describes(t) && t.loop.Waiting?
      ensures var work := old(state.damage) != [] || newClient;
              turn == Pacing.Turn(now, work, work, |old(frames)| < FRAME_QUEUE)
      ensures Pace() == Pacing.Paced(old(Pace()), turn, frameInterval)
      ensures if Pacing.Ticks(old(Pace()), turn, frameInterval) then Reaches(cv, ByLoop, s, t) else t == s
    {
      hide Rendered, Shows, IsRedraw, Bounded, WellFormed, Reaches;
      var isDirty := state.IsDirty();
      turn := Pacing.Turn(now, isDirty || newClient, isDirty || newClient, |frames| < FRAME_QUEUE);
      t := s;
      var minGapElapsed := now - lastCapture >= frameInterval;
      var earlyWork := (isDirty || newClient) && minGapElapsed;
      if now >= nextFrame || earlyWork {
        var accepted;
        accepted, t := Tick(cv, now, newClient, s);
        AdvanceDeadline(now);
      }
    }
  }

  lemma Begins(cv: Converter, s: State)
    requires s.loop.Waiting?
    ensures Reaches(cv, ByLoop, s, s.(loop := Recycling))
  {
    OneStep(cv, ByLoop, s, Begin, s.(loop := Recycling));
  }

  lemma DrawnIsClean(cv: Converter, s: State, frame: Frame, t: State)
    requires Next(cv, s, Pipeline.Draw(frame.data, frame.damage), t)
    ensures t.comp.damage == []
  {
    hide Rendered;
  }
}
