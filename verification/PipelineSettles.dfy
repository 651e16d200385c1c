/** Where the two threads get by themselves: from every reachable state to a quiet one
    with the help of one forced render, and not always without. */
module PipelineSettles {
  import opened Image
  import opened Options
  import opened Compose
  import opened Damage
  import opened Convert
  import opened Frames
  import opened Encoder
  import opened Pipeline
  import opened PipelineProof
  import opened PipelineTheorems
  import opened EncoderTurn

  predicate ByThreads(step: Step) { ByEncoder(step) || ByLoop(step) }

  /** The two threads can get from `s` to `t`. */
  ghost predicate Leads(cv: Converter, s: State, t: State) {
    Reaches(cv, ByThreads, s, t)
  }

  lemma Widened(cv: Converter, own: Step -> bool, s: State, t: State)
    requires Reaches(cv, own, s, t) && forall step: Step :: own(step) ==> ByThreads(step)
    ensures Leads(cv, s, t)
  {
    hide Next;
    var p :| Path(cv, own, p) && p[0] == s && p[|p| - 1] == t;
    forall i, j | 0 <= i && j == i + 1 < |p| ensures Moves(cv, ByThreads, p[i], p[j]) {
      assert Moves(cv, own, p[i], p[j]);
    }
    assert Path(cv, ByThreads, p);
  }

  lemma Further(cv: Converter, s: State, t: State, u: State)
    requires Leads(cv, s, t) && Leads(cv, t, u)
    ensures Leads(cv, s, u)
  {
    Onward(cv, ByThreads, s, t, u);
  }

  lemma By(cv: Converter, s: State, step: Step, t: State)
    requires ByThreads(step) && Next(cv, s, step, t)
    ensures Leads(cv, s, t)
  {
    OneStep(cv, ByThreads, s, step, t);
  }

  /** Runs keep the picture invariant. */
  lemma ReachesInv(cv: Converter, own: Step -> bool, s: State, t: State)
    requires PictureInv(cv, s) && Reaches(cv, own, s, t)
    ensures PictureInv(cv, t)
  {
    hide PictureInv, Next;
    var p :| Path(cv, own, p) && p[0] == s && p[|p| - 1] == t;
    PathInv(cv, own, p, |p| - 1);
  }

  lemma {:induction false} PathInv(cv: Converter, own: Step -> bool, p: seq<State>, i: nat)
    requires Path(cv, own, p) && PictureInv(cv, p[0]) && i < |p|
    ensures PictureInv(cv, p[i])
  {
    hide PictureInv, Next;
    if i > 0 {
      PathInv(cv, own, p, i - 1);
      assert Moves(cv, own, p[i - 1], p[i]);
      var step :| own(step) && Next(cv, p[i - 1], step, p[i]);
      NextInv(cv, p[i - 1], step, p[i]);
    }
  }

  /** The encoder thread leaves the compositor and the capture loop alone. */
  lemma EncoderLeaves(cv: Converter, s: State, t: State)
    requires Runs(cv, s, t)
    ensures t.comp == s.comp && t.loop == s.loop
  {
    hide Next;
    var p :| Path(cv, ByEncoder, p) && p[0] == s && p[|p| - 1] == t;
    PathLeaves(cv, p, |p| - 1);
  }

  lemma {:induction false} PathLeaves(cv: Converter, p: seq<State>, i: nat)
    requires Path(cv, ByEncoder, p) && i < |p|
    ensures p[i].comp == p[0].comp && p[i].loop == p[0].loop
  {
    hide AdvanceStep;
    if i > 0 {
      PathLeaves(cv, p, i - 1);
      assert Moves(cv, ByEncoder, p[i - 1], p[i]);
      var step :| ByEncoder(step) && Next(cv, p[i - 1], step, p[i]);
      AdvanceKeepsComp(cv, p[i - 1], step.planes, step.sent, p[i]);
    }
  }

  // ---------------------------------------------------------------- a render is always possible

  lemma CanRender(scene: Scene, w: nat, h: nat, canvas: seq<Byte>, region: seq<Rect>) returns (next: seq<Byte>, bands: seq<Band>)
    ensures Rendered(scene, w, h, canvas, region, next, bands)
  {
    var clips, before := ClipsFor(region, w, h, |canvas| != Bytes(w, h)), Blanked(canvas, w, h);
    var pixel: (nat, nat) -> Pixel := (x, y) => ComposedPixel(scene, before, w, h, clips, x, y);
    next := PictureOf(w, h, pixel);
    forall x: nat, y: nat | x < w && y < h
      ensures PixelAt(next, w, h, x, y) == ComposedPixel(scene, before, w, h, clips, x, y)
    {
      PictureOfAt(w, h, pixel, x, y);
    }
    ClipsAreDamage(region, w, h);
    bands := BandsOf(clips);
    ComposedIsRepainted(scene, w, h, canvas, region, next);
  }

  function ComposedPixel(scene: Scene, before: seq<Byte>, w: nat, h: nat, clips: seq<Clip>, x: nat, y: nat): Pixel
    requires |before| == Bytes(w, h)
  {
    match LastEdge(clips, x, y)
    case Some(right) => ScenePixelIn(scene, right, x, y)
    case None => if x < w && y < h then PixelAt(before, w, h, x, y) else BLACK
  }

  // ---------------------------------------------------------------- the capture loop

  /** The encoder's side is untouched, and so are size and scene; a truthful canvas
      stays so, if its buffers can be shown. */
  ghost predicate Aside(s: State, t: State) {
    && t.phase == s.phase && t.enc == s.enc && t.resize == s.resize && t.control == s.control && t.force == s.force
    && Faithful(s, t)
  }

  ghost predicate Faithful(s: State, t: State) {
    && t.comp.w == s.comp.w && t.comp.h == s.comp.h && t.comp.scene == s.comp.scene
    && (WellFormed(s.comp.scene) && Truthful(s.comp) ==> Truthful(t.comp))
  }

  lemma {:induction false} RecyclePath(cv: Converter, s: State)
    requires s.loop.Recycling?
    ensures Leads(cv, s, s.(spare := s.spare + s.returned, returned := []))
    decreases |s.returned|
  {
    var end := s.(spare := s.spare + s.returned, returned := []);
    if s.returned == [] {
      assert s.spare + s.returned == s.spare;
      Stays(cv, ByThreads, s);
    } else {
      var t := Recycled(s, false);
      By(cv, s, Recycle(false), t);
      RecyclePath(cv, t);
      assert t.spare + t.returned == s.spare + s.returned;
      hide Leads;
      Further(cv, s, t, end);
    }
  }

  /** From the decision to render: asking for no keyframe, rendering and offering. */
  lemma RenderPath(cv: Converter, s: State) returns (t: State)
    requires PictureInv(cv, s) && s.loop.Asking?
    ensures Leads(cv, s, t) && t.loop.Waiting? && Aside(s, t)
    ensures |s.frames| < FRAME_QUEUE ==> |t.frames| == |s.frames| + 1 && t.frames[..|s.frames|] == s.frames && t.comp.damage == []
    ensures s.spare == [] ==> t.spare == []
    ensures t.returned == s.returned
  {
    var drawing := Requested(s, false);
    By(cv, s, Request(false), drawing);
    NextInv(cv, s, Request(false), drawing);
    t := DrawPath(cv, drawing);
    hide Leads, PictureInv, Aside;
    Further(cv, s, drawing, t);
    AsideLoop(s, drawing, t);
  }

  lemma AsideLoop(s: State, d: State, t: State)
    requires Aside(d, t) && d == s.(loop := Drawing)
    ensures Aside(s, t)
  {
  }

  lemma DrawPath(cv: Converter, s: State) returns (t: State)
    requires PictureInv(cv, s) && s.loop.Drawing?
    ensures Leads(cv, s, t) && t.loop.Waiting? && Aside(s, t)
    ensures |s.frames| < FRAME_QUEUE ==> |t.frames| == |s.frames| + 1 && t.frames[..|s.frames|] == s.frames && t.comp.damage == []
    ensures s.spare == [] ==> t.spare == []
    ensures t.returned == s.returned
  {
    hide Leads, PictureInv, Aside, Rendered, Repainted;
    var c := s.comp;
    var canvas, bands := CanRender(c.scene, c.w, c.h, c.canvas, c.damage);
    RenderedIsRepainted(c, canvas, bands);
    var drawn := Drawn(s, canvas, bands);
    By(cv, s, Draw(canvas, bands), drawn);
    NextInv(cv, s, Draw(canvas, bands), drawn);
    t := Offered(drawn);
    By(cv, drawn, Offer, t);
    Further(cv, s, drawn, t);
    DrawnIsAside(s, canvas, bands);
    OfferedIsAside(cv, drawn);
    AsideOn(s, drawn, t);
  }

  lemma RenderedIsRepainted(c: Comp, canvas: seq<Byte>, bands: seq<Band>)
    requires Rendered(c.scene, c.w, c.h, c.canvas, c.damage, canvas, bands)
    ensures Repainted(c.w, c.h, c.canvas, c.damage, canvas, bands)
  {
  }

  lemma AsideOn(s: State, t: State, u: State)
    requires Aside(s, t) && Aside(t, u)
    ensures Aside(s, u)
  {
    hide WellFormed, Truthful;
  }

  lemma DrawnIsAside(s: State, canvas: seq<Byte>, bands: seq<Band>)
    requires Rendered(s.comp.scene, s.comp.w, s.comp.h, s.comp.canvas, s.comp.damage, canvas, bands)
    ensures Aside(s, Drawn(s, canvas, bands))
  {
    hide Rendered, WellFormed, Truthful;
    if WellFormed(s.comp.scene) && Truthful(s.comp) {
      DrawIsRedraw(s.comp, canvas, bands);
      RedrawIsTruthful(s.comp, canvas, []);
    }
  }

  lemma OfferedIsAside(cv: Converter, s: State)
    requires PictureInv(cv, s) && s.loop.Offering?
    ensures Aside(s, Offered(s))
  {
    hide WellFormed, Truthful, Carries, Chained, EncOk, CompOk, Readd;
    CarriedFits(s.accepted, s.comp, s.loop.frame);
    if Truthful(s.comp) {
      TruthfulIsRedraw(s.comp);
      RedrawIsTruthful(s.comp, s.comp.canvas, Offered(s).comp.damage);
    }
  }

  /** A tick, from the start, that renders because a client is new. */
  lemma ForcedTick(cv: Converter, s: State) returns (t: State)
    requires PictureInv(cv, s) && s.loop.Waiting?
    ensures Leads(cv, s, t) && t.loop.Waiting? && Aside(s, t) && PictureInv(cv, t)
    ensures |s.frames| < FRAME_QUEUE ==> |t.frames| == |s.frames| + 1 && t.frames[..|s.frames|] == s.frames && t.comp.damage == []
    ensures s.spare == [] && s.returned == [] ==> t.spare == [] && t.returned == []
  {
    hide PictureInv;
    var a := s.(loop := Recycling);
    By(cv, s, Begin, a);
    var b := a.(spare := a.spare + a.returned, returned := []);
    RecyclePath(cv, a);
    var c := b.(loop := Asking);
    By(cv, b, Recycle(true), c);
    hide Leads;
    Further(cv, s, a, b);
    Further(cv, s, b, c);
    LeadsInv(cv, s, c);
    t := RenderPath(cv, c);
    Further(cv, s, c, t);
    LeadsInv(cv, s, t);
  }

  lemma LeadsInv(cv: Converter, s: State, t: State)
    requires PictureInv(cv, s) && Leads(cv, s, t)
    ensures PictureInv(cv, t)
  {
    hide PictureInv, Reaches;
    ReachesInv(cv, ByThreads, s, t);
  }

  /** Whatever the capture loop is doing, it gets back to waiting. */
  lemma FinishTick(cv: Converter, s: State) returns (t: State)
    requires PictureInv(cv, s)
    ensures Leads(cv, s, t) && t.loop.Waiting? && Aside(s, t) && PictureInv(cv, t)
  {
    hide PictureInv, WellFormed, Truthful;
    match s.loop {
      case Waiting =>
        t := s;
        Stays(cv, ByThreads, s);
      case Recycling =>
        var b := s.(spare := s.spare + s.returned, returned := []);
        RecyclePath(cv, s);
        var c := Recycled(b, false);
        By(cv, b, Recycle(false), c);
        hide Leads;
        Further(cv, s, b, c);
        LeadsInv(cv, s, c);
        t := c;
        if c.loop.Asking? {
          t := RenderPath(cv, c);
          Further(cv, s, c, t);
        }
      case Asking => t := RenderPath(cv, s);
      case Drawing => t := DrawPath(cv, s);
      case Offering(frame) =>
        t := Offered(s);
        By(cv, s, Offer, t);
        OfferedIsAside(cv, s);
    }
    LeadsInv(cv, s, t);
  }

  // ---------------------------------------------------------------- the encoder thread

  /** Some conversion is always possible. */
  lemma CanConvert(cv: Converter, was: Planes, f: Frame, full: bool) returns (now: Planes)
    requires |f.data| == Bytes(f.w, f.h) && Sized(was, f.h)
    ensures Sized(now, f.h) && Converted(cv, was, f, full, now)
  {
    var all := FullConvert(cv, Rows(f));
    now := if full || f.damage == [] then all else MixOf(was, all, f.damage, f.h);
  }

  ghost function MixOf(was: Planes, full: Planes, damage: seq<Band>, h: nat): (p: Planes)
    requires Sized(was, h) && Sized(full, h)
    ensures Sized(p, h) && Mixed(was, full, p, damage, h)
  {
    Planes(
      seq(h, r requires 0 <= r < h => if LumaTouched(damage, h, r) then full.luma[r] else was.luma[r]),
      seq(ChromaRows(h), c requires 0 <= c < ChromaRows(h) => if ChromaTouched(damage, h, c) then full.u[c] else was.u[c]),
      seq(ChromaRows(h), c requires 0 <= c < ChromaRows(h) => if ChromaTouched(damage, h, c) then full.v[c] else was.v[c]))
  }

  function Blank(h: nat): (p: Planes)
    ensures Sized(p, h)
  {
    Planes(seq(h, _ => []), seq(ChromaRows(h), _ => []), seq(ChromaRows(h), _ => []))
  }

  /** Idle with nothing held, the YUV picture trusted. */
  predicate Served(s: State) { s.phase.Idle? && !s.enc.needsFull }

  lemma FinishSubmitting(cv: Converter, s: State) returns (t: State)
    requires PictureInv(cv, s) && s.phase.Submitting?
    ensures Runs(cv, s, t) && Served(t) && t.frames == s.frames
  {
    var f := s.phase.frame;
    assert Chain(s)[0] == f;
    assert FrameOk(f) && Viewed(f, s.enc.w, s.enc.h) == f;
    var planes := CanConvert(cv, s.enc.planes, f, s.enc.needsFull || s.force);
    hide Converted, Chained, CompOk, Lagging, FullConvert;
    t := s.(phase := Idle, force := false, returned := s.returned + [f.buf],
            served := if s.force then s.drained else s.served,
            forced := if s.force then s.forced + 1 else s.forced,
            enc := s.enc.(planes := planes, shown := f, needsFull := false));
    Step1(cv, s, planes, true, t);
  }

  lemma FinishSteering(cv: Converter, s: State) returns (t: State)
    requires PictureInv(cv, s) && s.phase.Steering?
    ensures Runs(cv, s, t) && Served(t) && t.frames == s.frames
  {
    hide PictureInv, Asks;
    DrainPath(cv, s, Blank(0));
    var ready := Drained(s);
    var looked := ready.(phase := Submitting(s.phase.frame));
    Step1(cv, ready, Blank(0), true, looked);
    Then(cv, s, ready, looked);
    RunsInv(cv, s, looked);
    t := FinishSubmitting(cv, looked);
    Then(cv, s, looked, t);
  }

  lemma RunsInv(cv: Converter, s: State, t: State)
    requires PictureInv(cv, s) && Runs(cv, s, t)
    ensures PictureInv(cv, t)
  {
    hide PictureInv, Reaches;
    ReachesInv(cv, ByEncoder, s, t);
  }

  lemma FinishFitting(cv: Converter, s: State) returns (t: State)
    requires PictureInv(cv, s) && s.phase.Fitting?
    ensures Runs(cv, s, t) && Served(t) && t.frames == s.frames
  {
    hide PictureInv, Runs;
    var steering := FitPath(cv, s, s.phase.frame, Blank(s.phase.frame.h));
    RunsInv(cv, s, steering);
    t := FinishSteering(cv, steering);
    Then(cv, s, steering, t);
  }

  lemma FinishSkipping(cv: Converter, s: State) returns (t: State)
    requires PictureInv(cv, s) && s.phase.Skipping?
    ensures Runs(cv, s, t) && Served(t) && t.frames == []
  {
    hide PictureInv, Runs, NewestOf;
    var fitting := SkipPath(cv, s, Blank(0));
    RunsInv(cv, s, fitting);
    t := FinishFitting(cv, fitting);
    Then(cv, s, fitting, t);
  }

  /** Everything queued is received and the newest submitted. */
  lemma ServeQueue(cv: Converter, s: State) returns (t: State)
    requires PictureInv(cv, s) && s.phase.Receiving? && s.frames != []
    ensures Runs(cv, s, t) && Served(t) && t.frames == []
  {
    hide PictureInv;
    var skipping := s.(frames := s.frames[1..], phase := Skipping(s.frames[0]));
    Step1(cv, s, Blank(0), true, skipping);
    hide Runs;
    RunsInv(cv, s, skipping);
    t := FinishSkipping(cv, skipping);
    Then(cv, s, skipping, t);
  }

  lemma FinishHeld(cv: Converter, s: State) returns (t: State)
    requires PictureInv(cv, s) && Held(s.phase) != []
    ensures Runs(cv, s, t) && Served(t)
  {
    hide PictureInv;
    match s.phase {
      case Swapping(stale, newer) =>
        var skipping := s.(returned := s.returned + [stale.buf], phase := Skipping(TakeOver(stale, newer)));
        Step1(cv, s, Blank(0), true, skipping);
        RunsInv(cv, s, skipping);
        t := FinishSkipping(cv, skipping);
        Then(cv, s, skipping, t);
      case Skipping(newest) => t := FinishSkipping(cv, s);
      case Fitting(frame) => t := FinishFitting(cv, s);
      case Steering(frame) => t := FinishSteering(cv, s);
      case Submitting(frame) => t := FinishSubmitting(cv, s);
      case _ => assert false;
    }
  }

  /** From idle to receiving, through the dropping of the queue if a resize was seen. */
  lemma IdlePath(cv: Converter, s: State) returns (t: State)
    requires s.phase.Idle?
    ensures Runs(cv, s, t) && t.phase.Receiving? && t.resize == None
    ensures if s.resize.None? then t.frames == s.frames && t.enc == s.enc else t.frames == [] && t.enc.needsFull
  {
    hide Asks;
    DrainPath(cv, s, Blank(0));
    var drained := Drained(s);
    if s.resize.None? {
      t := drained.(phase := Receiving);
      Step1(cv, drained, Blank(0), true, t);
      hide Runs;
      Then(cv, s, drained, t);
    } else {
      var w, h := s.resize.value.0, s.resize.value.1;
      var dropping := drained.(phase := Dropping(w, h), resize := None);
      Step1(cv, drained, Blank(0), true, dropping);
      DropPath(cv, dropping, Blank(h));
      t := Reinitialized(dropping, w, h, Blank(h)).(phase := Receiving, frames := [], returned := dropping.returned + Buffers(dropping.frames));
      hide Runs;
      Then(cv, s, drained, dropping);
      Then(cv, s, dropping, t);
    }
  }

  lemma ToReceiving(cv: Converter, s: State) returns (t: State)
    requires PictureInv(cv, s)
    ensures Runs(cv, s, t) && t.phase.Receiving?
    ensures s.phase.Idle? && s.frames == [] ==> t.frames == []
  {
    hide PictureInv;
    if s.phase.Idle? {
      t := IdlePath(cv, s);
    } else if s.phase.Dropping? {
      DropPath(cv, s, Blank(s.phase.h));
      t := Reinitialized(s, s.phase.w, s.phase.h, Blank(s.phase.h)).(
        phase := Receiving, frames := [], returned := s.returned + Buffers(s.frames));
    } else if s.phase.Receiving? {
      t := s;
      Stays(cv, ByEncoder, s);
    } else {
      var idle := FinishHeld(cv, s);
      t := IdlePath(cv, idle);
      hide Runs;
      Then(cv, s, idle, t);
    }
  }

  // ---------------------------------------------------------------- both together

  lemma EncoderTurnLeads(cv: Converter, s: State, t: State)
    requires PictureInv(cv, s) && Runs(cv, s, t)
    ensures Leads(cv, s, t) && PictureInv(cv, t) && t.comp == s.comp && t.loop == s.loop
  {
    hide PictureInv, Reaches, Next;
    Widened(cv, ByEncoder, s, t);
    RunsInv(cv, s, t);
    EncoderLeaves(cv, s, t);
  }

  /** The encoder thread finishes what it holds and queues, and waits for a frame. */
  lemma EmptyQueue(cv: Converter, s: State) returns (t: State)
    requires PictureInv(cv, s)
    ensures Leads(cv, s, t) && PictureInv(cv, t) && t.comp == s.comp && t.loop == s.loop
    ensures t.phase.Receiving? && t.frames == []
  {
    hide PictureInv, Runs, Leads;
    t := ToReceiving(cv, s);
    EncoderTurnLeads(cv, s, t);
    if t.frames != [] {
      var u := ServeQueue(cv, t);
      EncoderTurnLeads(cv, t, u);
      Further(cv, s, t, u);
      t := ToReceiving(cv, u);
      EncoderTurnLeads(cv, u, t);
      Further(cv, s, u, t);
    }
  }

  /** From every reachable state the two threads alone, with a render forced once, get to
      a quiet state, where what is encoded is what is on screen; and the screen shows the
      scene there if it did before. */
  lemma QuietIsReachable(cv: Converter, states: seq<State>, steps: seq<Step>, i: nat) returns (t: State)
    requires Run(cv, states, steps) && i <= |steps|
    ensures Leads(cv, states[i], t) && Quiet(t) && PictureInv(cv, t)
    ensures Faithful(states[i], t)
  {
    hide PictureInv, Runs, Leads, Truthful, WellFormed;
    var s := states[i];
    RunInv(cv, states, steps, i);
    var a := FinishTick(cv, s);
    var b := EmptyQueue(cv, a);
    Further(cv, s, a, b);
    var c := ForcedTick(cv, b);
    Further(cv, s, b, c);
    t := ServeQueue(cv, c);
    EncoderTurnLeads(cv, c, t);
    Further(cv, s, c, t);
  }

  // ---------------------------------------------------------------- without a forced render

  /** Nothing to render, nothing to receive, and a full conversion due. */
  predicate Stalled(s: State) {
    && (s.loop.Waiting? || s.loop.Recycling?) && s.comp.damage == []
    && s.phase.Receiving? && s.frames == [] && s.enc.needsFull
  }

  /** The threads' steps, but for a tick that a new client makes render. */
  predicate Unforced(step: Step) { ByThreads(step) && step != Recycle(true) }

  lemma UnforcedStaysStalled(cv: Converter, s: State, step: Step, t: State)
    requires Stalled(s) && Unforced(step) && Next(cv, s, step, t)
    ensures Stalled(t) && t.enc == s.enc
  {
    hide Repainted, SubmitStep;
  }

  /** Unless a render is forced, whatever the two threads do they stay stalled, with a
      YUV picture that cannot be trusted. */
  lemma StalledNeedsForce(cv: Converter, s: State, t: State)
    requires Stalled(s) && Reaches(cv, Unforced, s, t)
    ensures Stalled(t) && t.enc == s.enc && !Quiet(t)
  {
    hide Next;
    var p :| Path(cv, Unforced, p) && p[0] == s && p[|p| - 1] == t;
    StalledAlong(cv, p, |p| - 1);
  }

  lemma {:induction false} StalledAlong(cv: Converter, p: seq<State>, i: nat)
    requires Path(cv, Unforced, p) && Stalled(p[0]) && i < |p|
    ensures Stalled(p[i]) && p[i].enc == p[0].enc
  {
    hide Next, Stalled;
    if i > 0 {
      StalledAlong(cv, p, i - 1);
      assert Moves(cv, Unforced, p[i - 1], p[i]);
      var step :| Unforced(step) && Next(cv, p[i - 1], step, p[i]);
      UnforcedStaysStalled(cv, p[i - 1], step, p[i]);
    }
  }

  /** It happens: a resize, a frame of the new size, and the encoder thread, which then
      sees the resize and drops that frame. */
  lemma ResizeCanStall(cv: Converter, s: State, w: nat, h: nat) returns (resized: State, t: State)
    requires Init(s) && SizeOk(w, h)
    ensures Next(cv, s, Resize(w, h), resized) && Leads(cv, resized, t) && Stalled(t)
  {
    InitInv(cv, s);
    resized := s.(comp := Damaged(s.comp.(w := w, h := h), Full(w, h)), resize := Some((w, h)));
    NextInv(cv, s, Resize(w, h), resized);
    hide PictureInv, Runs, Leads;
    var ticked := ForcedTick(cv, resized);
    t := IdlePath(cv, ticked);
    EncoderTurnLeads(cv, ticked, t);
    Further(cv, resized, ticked, t);
  }

  // ---------------------------------------------------------------- seven buffers

  /** The bound on buffers is reached from start-up, and between ticks: six frames are
      rendered while the encoder thread holds two, a tick finds nothing to recycle, and a
      buffer comes back before it renders. */
  lemma SevenIsReached(cv: Converter, s: State) returns (t: State)
    requires Init(s)
    ensures Leads(cv, s, t) && t.loop.Waiting? && Alive(t) == FRAME_QUEUE + 3
  {
    InitInv(cv, s);
    hide PictureInv, Leads, Aside;
    var a := s.(phase := Receiving);
    By(cv, s, Advance(Blank(0), true), a);
    LeadsInv(cv, s, a);
    var b := SixTicks(cv, a);
    Further(cv, s, a, b);
    t := SeventhTick(cv, b);
    Further(cv, s, b, t);
  }

  ghost predicate Unrecycled(s: State) {
    s.loop.Waiting? && s.spare == [] && s.returned == []
  }

  lemma OneMore(cv: Converter, s: State) returns (t: State)
    requires PictureInv(cv, s) && Unrecycled(s) && |s.frames| < FRAME_QUEUE
    ensures Leads(cv, s, t) && PictureInv(cv, t) && Unrecycled(t) && |t.frames| == |s.frames| + 1 && t.phase == s.phase
  {
    hide PictureInv, Leads, WellFormed, Truthful;
    t := ForcedTick(cv, s);
  }

  lemma SixTicks(cv: Converter, s: State) returns (t: State)
    requires PictureInv(cv, s) && Unrecycled(s) && s.phase.Receiving? && s.frames == []
    ensures Leads(cv, s, t) && PictureInv(cv, t) && Unrecycled(t) && |t.frames| == FRAME_QUEUE && t.phase.Swapping?
  {
    hide PictureInv, Leads;
    var a := OneMore(cv, s);
    var b := a.(frames := a.frames[1..], phase := Skipping(a.frames[0]));
    By(cv, a, Advance(Blank(0), true), b);
    LeadsInv(cv, a, b);
    Further(cv, s, a, b);
    var c := OneMore(cv, b);
    Further(cv, s, b, c);
    var d := c.(frames := c.frames[1..], phase := Swapping(c.phase.newest, c.frames[0]));
    By(cv, c, Advance(Blank(0), true), d);
    LeadsInv(cv, c, d);
    Further(cv, s, c, d);
    t := FourTicks(cv, d);
    Further(cv, s, d, t);
  }

  lemma FourTicks(cv: Converter, s: State) returns (t: State)
    requires PictureInv(cv, s) && Unrecycled(s) && s.frames == []
    ensures Leads(cv, s, t) && PictureInv(cv, t) && Unrecycled(t) && |t.frames| == 4 && t.phase == s.phase
  {
    hide PictureInv, Leads, Unrecycled;
    var a := OneMore(cv, s);
    var b := OneMore(cv, a);
    var c := OneMore(cv, b);
    t := OneMore(cv, c);
    Further(cv, s, a, b);
    Further(cv, s, b, c);
    Further(cv, s, c, t);
  }

  lemma SeventhTick(cv: Converter, s: State) returns (t: State)
    requires PictureInv(cv, s) && Unrecycled(s) && |s.frames| == FRAME_QUEUE && s.phase.Swapping?
    ensures Leads(cv, s, t) && t.loop.Waiting? && Alive(s) == FRAME_QUEUE + 2 && Alive(t) == FRAME_QUEUE + 3
  {
    hide PictureInv, Leads, Rendered, Repainted;
    var a := s.(loop := Recycling);
    By(cv, s, Begin, a);
    var b := a.(loop := Asking);
    By(cv, a, Recycle(true), b);
    Further(cv, s, a, b);
    var c := b.(returned := [b.phase.stale.buf], phase := Skipping(TakeOver(b.phase.stale, b.phase.newer)));
    By(cv, b, Advance(Blank(0), true), c);
    Further(cv, s, b, c);
    var d := c.(frames := c.frames[1..], phase := Swapping(c.phase.newest, c.frames[0]));
    By(cv, c, Advance(Blank(0), true), d);
    Further(cv, s, c, d);
    t := RenderUnrecycled(cv, s, d);
  }

  lemma RenderUnrecycled(cv: Converter, s: State, d: State) returns (t: State)
    requires Leads(cv, s, d) && d.loop.Asking? && d.spare == [] && |d.returned| == 1 && |d.frames| == 3 && |Held(d.phase)| == 2
    ensures Leads(cv, s, t) && t.loop.Waiting? && Alive(t) == FRAME_QUEUE + 3
  {
    hide Leads, Rendered, Repainted;
    var c := d.comp;
    var canvas, bands := CanRender(c.scene, c.w, c.h, c.canvas, c.damage);
    RenderedIsRepainted(c, canvas, bands);
    var drawing := Requested(d, false);
    By(cv, d, Request(false), drawing);
    Further(cv, s, d, drawing);
    var drawn := Drawn(drawing, canvas, bands);
    By(cv, drawing, Draw(canvas, bands), drawn);
    Further(cv, s, drawing, drawn);
    t := Offered(drawn);
    By(cv, drawn, Offer, t);
    Further(cv, s, drawn, t);
  }
}
