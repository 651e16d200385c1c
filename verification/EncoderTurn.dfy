/** One uninterrupted turn of the encoder thread's loop is a run of the pipeline
    machine: control messages, a seen resize, and from a frame to its submission. */
module EncoderTurn {
  import opened Image
  import opened Options
  import opened Convert
  import opened Frames
  import opened Encoder
  import opened Pipeline
  import opened PipelineTheorems

  /** The encoder thread can get from `s` to `t` by its own steps alone. */
  ghost predicate Runs(cv: Converter, s: State, t: State) {
    Reaches(cv, ByEncoder, s, t)
  }

  lemma Step1(cv: Converter, s: State, planes: Planes, sent: bool, t: State)
    requires AdvanceStep(cv, s, planes, sent, t)
    ensures Runs(cv, s, t)
  {
    hide AdvanceStep;
    OneStep(cv, ByEncoder, s, Advance(planes, sent), t);
  }

  lemma Then(cv: Converter, s: State, t: State, u: State)
    requires Runs(cv, s, t) && Runs(cv, t, u)
    ensures Runs(cv, s, u)
  {
    Onward(cv, ByEncoder, s, t, u);
  }

  // ---------------------------------------------------------------- pieces of a turn

  /** Draining the control queue, before a resize check or before a submission. */
  function Drained(s: State): State {
    s.(control := [], force := s.force || ForceKeyframe in s.control, drained := s.drained + Asks(s.control))
  }

  lemma {:induction false} DrainPath(cv: Converter, s: State, blank: Planes)
    requires s.phase.Idle? || s.phase.Steering?
    ensures Runs(cv, s, Drained(s))
    decreases |s.control|
  {
    if s.control == [] {
      Stays(cv, ByEncoder, s);
    } else {
      var t := ReadControl(s);
      Step1(cv, s, blank, true, t);
      DrainedOneMore(s);
      assert t.phase == s.phase && t.control == s.control[1..];
      hide Runs, AdvanceStep, ReadControl, Drained;
      DrainPath(cv, t, blank);
      Then(cv, s, t, Drained(s));
    }
  }

  lemma DrainedOneMore(s: State)
    requires s.control != []
    ensures Drained(ReadControl(s)) == Drained(s)
  {
    assert s.control == [s.control[0]] + s.control[1..];
  }

  lemma {:induction false} DropPath(cv: Converter, s: State, blank: Planes)
    requires s.phase.Dropping? && Sized(blank, s.phase.h)
    ensures Runs(cv, s, Reinitialized(s, s.phase.w, s.phase.h, blank).(
              phase := Receiving, frames := [], returned := s.returned + Buffers(s.frames)))
    decreases |s.frames|
  {
    var end := Reinitialized(s, s.phase.w, s.phase.h, blank).(
      phase := Receiving, frames := [], returned := s.returned + Buffers(s.frames));
    if s.frames == [] {
      assert s.returned + Buffers(s.frames) == s.returned;
      Step1(cv, s, blank, true, end);
    } else {
      var t := s.(frames := s.frames[1..], returned := s.returned + [s.frames[0].buf]);
      Step1(cv, s, blank, true, t);
      DropPath(cv, t, blank);
      assert t.returned + Buffers(t.frames) == s.returned + Buffers(s.frames);
      Then(cv, s, t, end);
    }
  }

  lemma {:induction false} SkipPath(cv: Converter, s: State, blank: Planes) returns (t: State)
    requires s.phase.Skipping?
    ensures Runs(cv, s, t)
    ensures var kept := NewestOf(s.phase.newest, s.frames);
            && t == s.(frames := [], returned := t.returned, phase := Fitting(kept))
            && t.returned + [kept.buf] == s.returned + Buffers([s.phase.newest] + s.frames)
    decreases |s.frames|
  {
    hide Runs, TakeOver, AdvanceStep, Buffers;
    var newest := s.phase.newest;
    if s.frames == [] {
      t := s.(phase := Fitting(newest));
      SkipNone(cv, s, blank);
    } else {
      var newer, rest := s.frames[0], s.frames[1..];
      var swapped := s.(frames := rest, returned := s.returned + [newest.buf], phase := Skipping(TakeOver(newest, newer)));
      SkipOne(cv, s, blank);
      t := SkipPath(cv, swapped, blank);
      Then(cv, s, swapped, t);
      TakenBuffer(newest, newer, rest);
      assert s.frames == [newer] + rest;
      assert NewestOf(newest, s.frames) == NewestOf(TakeOver(newest, newer), rest);
      var tail := Buffers([TakeOver(newest, newer)] + rest);
      assert (s.returned + [newest.buf]) + tail == s.returned + ([newest.buf] + tail);
    }
  }

  lemma SkipNone(cv: Converter, s: State, blank: Planes)
    requires s.phase.Skipping? && s.frames == []
    ensures Runs(cv, s, s.(phase := Fitting(s.phase.newest)))
    ensures Buffers([s.phase.newest] + s.frames) == [s.phase.newest.buf]
  {
    Step1(cv, s, blank, true, s.(phase := Fitting(s.phase.newest)));
  }

  lemma SkipOne(cv: Converter, s: State, blank: Planes)
    requires s.phase.Skipping? && s.frames != []
    ensures Runs(cv, s, s.(frames := s.frames[1..], returned := s.returned + [s.phase.newest.buf],
                              phase := Skipping(TakeOver(s.phase.newest, s.frames[0]))))
  {
    hide Runs, TakeOver;
    var swapping := s.(frames := s.frames[1..], phase := Swapping(s.phase.newest, s.frames[0]));
    var swapped := swapping.(returned := s.returned + [s.phase.newest.buf], phase := Skipping(TakeOver(s.phase.newest, s.frames[0])));
    Step1(cv, s, blank, true, swapping);
    Step1(cv, swapping, blank, true, swapped);
    Then(cv, s, swapping, swapped);
  }

  lemma TakenBuffer(stale: Frame, newer: Frame, rest: seq<Frame>)
    ensures Buffers([stale] + ([newer] + rest)) == [stale.buf] + Buffers([TakeOver(stale, newer)] + rest)
  {
  }

  /** From a received frame to the submission of the newest one. */
  lemma SubmitPath(cv: Converter, s: State, planes: Planes, sent: bool) returns (t: State)
    requires s.phase.Receiving? && s.frames != []
    requires var f := NewestOf(s.frames[0], s.frames[1..]); var refit := f.w != s.enc.w || f.h != s.enc.h;
             && |f.data| == Bytes(f.w, f.h) && Sized(planes, f.h) && Sized(s.enc.planes, s.enc.h)
             && (if refit then planes == FullConvert(cv, Rows(f))
                 else Converted(cv, s.enc.planes, f, s.enc.needsFull || s.force || ForceKeyframe in s.control, planes))
    ensures Runs(cv, s, t)
    ensures var f := NewestOf(s.frames[0], s.frames[1..]); var refit := f.w != s.enc.w || f.h != s.enc.h;
            && t == Drained(s).(phase := Idle, frames := [], force := false, returned := s.returned + Buffers(s.frames),
                                enc := Backend(f.w, f.h, (s.enc.needsFull || refit) && !sent, planes, f),
                                served := t.served, forced := t.forced)
  {
    hide Runs, FullConvert, Converted, Asks, NewestOf, Rows;
    var f := NewestOf(s.frames[0], s.frames[1..]);
    var refit := f.w != s.enc.w || f.h != s.enc.h;
    if refit {
      FullIsConverted(cv, planes, f);
    }
    var skipping := s.(frames := s.frames[1..], phase := Skipping(s.frames[0]));
    Step1(cv, s, planes, sent, skipping);
    var fitting := SkipPath(cv, skipping, planes);
    Then(cv, s, skipping, fitting);
    var steering := FitPath(cv, fitting, f, planes);
    Then(cv, s, fitting, steering);
    DrainPath(cv, steering, planes);
    var ready := Drained(steering);
    Then(cv, s, steering, ready);
    assert [s.frames[0]] + s.frames[1..] == s.frames;
    assert (ready.enc.needsFull || ready.force) == (refit || s.enc.needsFull || s.force || ForceKeyframe in s.control);
    t := SubmitLast(cv, ready, f, planes, sent);
    Then(cv, s, ready, t);
  }

  lemma FullIsConverted(cv: Converter, was: Planes, f: Frame)
    requires |f.data| == Bytes(f.w, f.h) && Sized(was, f.h)
    ensures Converted(cv, was, f, true, FullConvert(cv, Rows(f)))
  {
  }

  lemma FitPath(cv: Converter, s: State, f: Frame, planes: Planes) returns (t: State)
    requires s.phase == Fitting(f) && Sized(planes, f.h)
    ensures Runs(cv, s, t)
    ensures t == if f.w == s.enc.w && f.h == s.enc.h then s.(phase := Steering(f))
                 else Reinitialized(s, f.w, f.h, planes).(phase := Steering(f))
  {
    t := if f.w == s.enc.w && f.h == s.enc.h then s.(phase := Steering(f))
         else Reinitialized(s, f.w, f.h, planes).(phase := Steering(f));
    Step1(cv, s, planes, true, t);
  }

  lemma SubmitLast(cv: Converter, s: State, f: Frame, planes: Planes, sent: bool) returns (t: State)
    requires s.phase == Steering(f) && s.control == [] && s.enc.w == f.w && s.enc.h == f.h && |f.data| == Bytes(f.w, f.h)
    requires Sized(s.enc.planes, f.h) && Sized(planes, f.h) && Converted(cv, s.enc.planes, f, s.enc.needsFull || s.force, planes)
    ensures Runs(cv, s, t)
    ensures t == s.(phase := Idle, force := false, returned := s.returned + [f.buf],
                    enc := Backend(f.w, f.h, s.enc.needsFull && !sent, planes, f), served := t.served, forced := t.forced)
  {
    hide Runs, Converted;
    var looked := s.(phase := Submitting(f));
    t := s.(phase := Idle, force := false, returned := s.returned + [f.buf],
            served := if s.force then s.drained else s.served,
            forced := if s.force then s.forced + 1 else s.forced,
            enc := s.enc.(planes := planes, shown := f, needsFull := s.enc.needsFull && !sent));
    assert Viewed(f, s.enc.w, s.enc.h) == f;
    Step1(cv, s, planes, sent, looked);
    Step1(cv, looked, planes, sent, t);
    Then(cv, s, looked, t);
  }

  // ---------------------------------------------------------------- the loop

  /** The machine state `s` describes the thread and its channels. */
  ghost predicate Describes(s: State, thread: EncoderThread)
    reads thread, thread.encoder, thread.encoder.yuv.luma, thread.encoder.yuv.u, thread.encoder.yuv.v
    requires thread.encoder.Valid()
  {
    var e := thread.encoder;
    && s.frames == thread.frames && s.control == thread.control && s.resize == thread.resize
    && s.returned == thread.returned && s.force == thread.forceKeyframe
    && s.enc == Backend(e.width, e.height, e.needsFullConvert, e.yuv.Contents(), thread.shown)
  }

  /** The control queue is drained: a run of the machine in the same phase. */
  method DrainTurn(thread: EncoderThread, opens: nat -> bool, ghost s: State) returns (ghost t: State)
    requires thread.Valid() && Describes(s, thread) && s.phase.Idle?
    modifies thread`control, thread`forceKeyframe, thread.encoder`rateControl, thread.encoder`frameCount
    ensures thread.Valid() && Describes(t, thread) && Runs(thread.cv, s, t) && t.phase.Idle? && thread.control == []
  {
    hide FullConvert, FrameOk, Linked, Link, Runs, RateAfter;
    thread.DrainControlMessages(opens);
    t := Drained(s);
    DrainPath(thread.cv, s, s.enc.planes);
  }

  /** The resize check: straight on, or through the dropping of every queued frame. */
  method ResizeTurn(thread: EncoderThread, opens: bool, ghost s: State) returns (ok: bool, ghost t: State)
    requires thread.Valid() && Describes(s, thread) && s.phase.Idle? && thread.control == []
    modifies thread`frames, thread`returned, thread`resize, thread.encoder
    ensures ok <==> old(thread.resize).None? || opens
    ensures ok ==> thread.Valid() && Describes(t, thread) && Runs(thread.cv, s, t) && t.phase.Receiving?
    ensures thread.frames == if old(thread.resize).None? then old(thread.frames) else []
    ensures var yuv := thread.encoder.yuv;
            && thread.encoder == old(thread.encoder)
            && (yuv == old(thread.encoder.yuv) || (fresh(yuv) && fresh(yuv.luma) && fresh(yuv.u) && fresh(yuv.v)))
  {
    hide FullConvert, FrameOk, Linked, Link, Runs;
    ok := thread.SeeResize(opens);
    t := s;
    if !ok {
      return;
    }
    if s.resize.None? {
      t := s.(phase := Receiving);
      Step1(thread.cv, s, s.enc.planes, true, t);
    } else {
      ghost var size := s.resize.value;
      ghost var dropping := s.(phase := Dropping(size.0, size.1), resize := None);
      ghost var blank := thread.encoder.yuv.Contents();
      Step1(thread.cv, s, blank, true, dropping);
      DropPath(thread.cv, dropping, blank);
      t := Reinitialized(dropping, size.0, size.1, blank).(phase := Receiving, frames := [], returned := s.returned + Buffers(s.frames));
      Then(thread.cv, s, dropping, t);
    }
  }

  /** From a received frame to a submission. */
  method SubmitTurn(thread: EncoderThread, refits: bool, opens: nat -> bool, sent: bool, ghost s: State) returns (ok: bool, ghost t: State)
    requires thread.Valid() && Describes(s, thread) && s.phase.Receiving? && thread.frames != []
    modifies thread, thread.encoder, thread.encoder.yuv.luma, thread.encoder.yuv.u, thread.encoder.yuv.v
    ensures refits ==> ok
    ensures ok ==> thread.Valid() && Describes(t, thread) && Runs(thread.cv, s, t) && t.phase.Idle?
  {
    hide FullConvert, Converted, Linked, Link, Runs, Rows, NewestOf;
    NewestIsLast(s.frames[0], s.frames[1..]);
    SamePictureRows(s.frames[|s.frames| - 1], NewestOf(s.frames[0], s.frames[1..]));
    var forced;
    ok, forced := thread.EncodeNext(refits, opens, sent);
    t := s;
    if ok {
      t := SubmitPath(thread.cv, s, thread.encoder.yuv.Contents(), sent);
    }
  }

  /** One turn: control messages, the resize check, and, if a frame is there to be
      received, everything up to its submission. The thread goes on unless an encoder
      fails to open at a new size. */
  method LoopOnce(thread: EncoderThread, refits: bool, opens: nat -> bool, sent: bool, ghost s: State) returns (ok: bool, ghost t: State)
    requires thread.Valid() && Describes(s, thread) && s.phase.Idle?
    modifies thread, thread.encoder, thread.encoder.yuv.luma, thread.encoder.yuv.u, thread.encoder.yuv.v
    ensures refits ==> ok
    ensures ok ==>
              && thread.Valid() && Describes(t, thread) && Runs(thread.cv, s, t)
              && if old(thread.resize).None? && old(thread.frames) != [] then t.phase.Idle? else t.phase.Receiving?
  {
    hide FullConvert, Linked, Link, FrameOk, Runs;
    ghost var drained := DrainTurn(thread, opens, s);
    ok, t := ResizeTurn(thread, refits, drained);
    if !ok {
      return;
    }
    Then(thread.cv, s, drained, t);
    if thread.frames != [] {
      ghost var received := t;
      ok, t := SubmitTurn(thread, refits, opens, sent, received);
      if ok {
        Then(thread.cv, s, received, t);
      }
    }
  }
}
