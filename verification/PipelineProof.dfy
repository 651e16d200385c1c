/** Every interleaving of the pipeline keeps its two caches coherent. */
module PipelineProof {
  import opened Image
  import opened Options
  import opened Compose
  import opened Damage
  import opened Compositor
  import opened Convert
  import opened Frames
  import opened Pipeline

  // ---------------------------------------------------------------- capture loop

  lemma BehindMoreDamage(last: Option<Frame>, c: Comp, rect: Rect)
    requires Behind(last, c)
    ensures Behind(last, Damaged(c, rect))
  {
    var d := Damaged(c, rect);
    forall r: nat | r < c.h && !RowDirty(d.damage, c.w, r)
      ensures SameRow(last, d, r)
    {
      forall x | 0 <= x < c.w ensures !Covers(c.damage, x, r) {
        if Covers(c.damage, x, r) {
          AccumulateCovers(c.damage, rect, Full(c.w, c.h), x, r);
        }
      }
      assert SameRow(last, c, r);
    }
  }

  lemma FullBehind(last: Option<Frame>, c: Comp)
    requires 0 < c.w && Full(c.w, c.h) in c.damage
    ensures Behind(last, c)
  {
    forall r: nat | r < c.h ensures RowDirty(c.damage, c.w, r) {
      var i :| 0 <= i < |c.damage| && c.damage[i] == Full(c.w, c.h);
      assert c.damage[i].Contains(0, r);
      assert Covers(c.damage, 0, r);
    }
  }

  lemma FullInAccumulate(rects: seq<Rect>, full: Rect)
    ensures full in Accumulate(rects, full, full)
  {
  }

  /** Any commit, whatever it changes and reports. */
  lemma CommitKeeps(c: Comp, last: Option<Frame>, after: Scene, report: Option<Rect>)
    requires CompOk(c) && Behind(last, c)
    ensures var d := c.(scene := after, damage := Grown(c.damage, report, Full(c.w, c.h)));
            CompOk(d) && Behind(last, d)
  {
    BehindScene(last, c, after);
    if report.Some? {
      AccumulateBounded(c.damage, report.value, Full(c.w, c.h));
      BehindMoreDamage(last, c.(scene := after), report.value);
    }
  }

  lemma BehindScene(last: Option<Frame>, c: Comp, after: Scene)
    requires Behind(last, c)
    ensures Behind(last, c.(scene := after))
  {
    var d := c.(scene := after);
    forall r: nat | r < d.h && !RowDirty(d.damage, d.w, r) ensures SameRow(last, d, r) {
      assert SameRow(last, c, r);
    }
  }

  lemma FullDamageKeeps(c: Comp, last: Option<Frame>)
    requires SizeOk(c.w, c.h) && |c.damage| <= MAX_DAMAGE_RECTS
    ensures var d := Damaged(c, Full(c.w, c.h)); CompOk(d) && Behind(last, d)
  {
    var d := Damaged(c, Full(c.w, c.h));
    FullInAccumulate(c.damage, Full(c.w, c.h));
    ResizeBounded(c.damage, Full(c.w, c.h));
    FullBehind(last, d);
  }

  /** A rendered frame differs from the frame accepted before it only in the bands it
      reports. */
  lemma DrawCarries(c: Comp, last: Option<Frame>, frame: Frame)
    requires CompOk(c) && Behind(last, c) && frame.w == c.w && frame.h == c.h
    requires Repainted(c.w, c.h, c.canvas, c.damage, frame.data, frame.damage)
    ensures Carries(last, c.(canvas := frame.data, damage := []), frame)
  {
    assert FrameOk(frame);
    var d := c.(canvas := frame.data, damage := []);
    forall r: nat | r < c.h && !RowIn(frame.damage, r) ensures SameRow(last, d, r) {
      RenderKeepsOtherRows(c.w, c.h, c.canvas, c.damage, frame.data, frame.damage, r);
      assert SameRow(last, c, r);
    }
  }

  lemma CarriedLinks(c: Comp, last: Frame, frame: Frame)
    requires Carries(Some(last), c, frame) && FrameOk(last)
    ensures Link(last, frame)
  {
    forall r: nat | r < c.h && !RowIn(frame.damage, r)
      ensures last.w == c.w && last.h == c.h && Row(last.data, last.w, last.h, r) == Row(frame.data, frame.w, frame.h, r)
    {
      assert SameRow(Some(last), c, r);
    }
  }

  /** After a drop, every row the canvas has and the encoder was never sent is damaged
      again. */
  lemma DropKeepsBehind(c: Comp, last: Option<Frame>, frame: Frame)
    requires Carries(last, c, frame)
    ensures Behind(last, c.(damage := Readd([], frame.damage, c.w, c.h)))
  {
    var d := c.(damage := Readd([], frame.damage, c.w, c.h));
    forall r: nat | r < c.h && !RowDirty(d.damage, d.w, r) ensures SameRow(last, d, r) {
      if RowIn(frame.damage, r) {
        ReaddRows(frame.damage, c.w, c.h, r);
      }
      assert SameRow(last, c, r);
    }
  }

  lemma ReaddKeepsCompOk(c: Comp, bands: seq<Band>)
    requires CompOk(c) && c.damage == []
    ensures CompOk(c.(damage := Readd([], bands, c.w, c.h)))
  {
    ReaddBounded([], bands, c.w, c.h);
  }

  lemma AcceptedBehind(c: Comp, frame: Frame)
    requires FrameOk(frame) && frame.w == c.w && frame.h == c.h && frame.data == c.canvas
    ensures Behind(Some(frame), c)
  {
  }

  /** The fields the picture invariant reads, a frame being offered apart. */
  ghost predicate SameView(s: State, t: State) {
    && t.comp == s.comp && t.frames == s.frames && t.phase == s.phase && t.enc == s.enc && t.accepted == s.accepted
    && (t.loop == s.loop || (!s.loop.Offering? && !t.loop.Offering?))
  }

  lemma SameViewKeeps(cv: Converter, s: State, t: State)
    requires PictureInv(cv, s) && SameView(s, t)
    ensures PictureInv(cv, t)
  {
    hide FrameOk, Link, Linked, Shows, Bounded, FullConvert, Behind, Carries;
    assert Chain(t) == Chain(s);
  }

  lemma DrawKeeps(cv: Converter, s: State, canvas: seq<Byte>, bands: seq<Band>, t: State)
    requires PictureInv(cv, s) && DrawStep(s, canvas, bands, t)
    ensures PictureInv(cv, t)
  {
    hide Link, Linked, Repainted, FullConvert, Behind, Carries;
    DrawCarries(s.comp, s.accepted, t.loop.frame);
    assert Chain(t) == Chain(s);
  }

  lemma OfferKeeps(cv: Converter, s: State)
    requires PictureInv(cv, s) && s.loop.Offering?
    ensures PictureInv(cv, Offered(s))
  {
    hide Link, Linked, Bounded, FullConvert, Behind, Carries;
    var t, frame := Offered(s), s.loop.frame.(asks := s.asked, serial := s.queued);
    CarriesAsked(s.comp, s.accepted, s.loop.frame, s.asked, s.queued);
    if |s.frames| < FRAME_QUEUE {
      CarriedIsAccepted(s.accepted, s.comp, frame);
      AcceptKeepsChain(s, frame, t);
    } else {
      CarriedFields(s.accepted, s.comp, frame);
      ReaddKeepsCompOk(s.comp, frame.damage);
      DropKeepsBehind(s.comp, s.accepted, frame);
      assert Chain(t) == Chain(s);
    }
  }

  lemma CarriesAsked(c: Comp, last: Option<Frame>, frame: Frame, asks: nat, serial: nat)
    requires Carries(last, c, frame)
    ensures Carries(last, c, frame.(asks := asks, serial := serial))
  {
  }

  lemma CarriedFields(last: Option<Frame>, c: Comp, frame: Frame)
    requires Carries(last, c, frame)
    ensures FrameOk(frame) && c.damage == []
  {
  }

  lemma CarriedIsAccepted(last: Option<Frame>, c: Comp, frame: Frame)
    requires Carries(last, c, frame)
    ensures FrameOk(frame) && Behind(Some(frame), c)
  {
    AcceptedBehind(c, frame);
  }

  lemma AcceptKeepsChain(s: State, frame: Frame, t: State)
    requires Carries(s.accepted, s.comp, frame) && Chained(s)
    requires t.frames == s.frames + [frame] && t.accepted == Some(frame) && t.phase == s.phase && t.enc == s.enc
    requires Trusted(s) ==> FrameOk(s.enc.shown)
    ensures Chained(t)
  {
    CarriedFields(s.accepted, s.comp, frame);
    hide Carries, FrameOk, Link;
    var chain := Chain(s);
    assert Chain(t) == chain + [frame];
    if chain != [] {
      var last := chain[|chain| - 1];
      CarriesSamePicture(s.accepted.value, last, s.comp, frame);
      CarriedLinks(s.comp, last, frame);
    } else if Trusted(s) {
      CarriesSamePicture(s.accepted.value, s.enc.shown, s.comp, frame);
      CarriedLinks(s.comp, s.enc.shown, frame);
    }
  }

  lemma CarriesSamePicture(a: Frame, b: Frame, c: Comp, frame: Frame)
    requires Carries(Some(a), c, frame) && SamePicture(a, b)
    ensures Carries(Some(b), c, frame)
  {
    forall r: nat | r < c.h && !RowIn(frame.damage, r) ensures SameRow(Some(b), c, r) {
      assert SameRow(Some(a), c, r);
    }
  }

  // ---------------------------------------------------------------- encoder thread

  lemma AdvanceKeeps(cv: Converter, s: State, planes: Planes, sent: bool, t: State)
    requires PictureInv(cv, s) && AdvanceStep(cv, s, planes, sent, t)
    ensures PictureInv(cv, t)
  {
    if s.phase.Submitting? {
      SubmitConvertsInFull(cv, s, s.phase.frame, planes, sent, t);
      SubmitKeepsChain(cv, s, s.phase.frame, t);
    } else {
      AdvanceKeepsChain(cv, s, planes, sent, t);
      AdvanceKeepsPlanes(cv, s, planes, sent, t);
    }
  }

  lemma AdvanceKeepsChain(cv: Converter, s: State, planes: Planes, sent: bool, t: State)
    requires Chained(s) && AdvanceStep(cv, s, planes, sent, t)
    requires !s.phase.Submitting?
    ensures t.comp == s.comp && t.loop == s.loop && t.accepted == s.accepted && Chained(t)
  {
    hide Chained, Chain, Sized, TakeOver;
    if s.phase.Dropping? {
      if s.frames != [] {
        DropHead(s, t);
      } else {
        EmptyChain(t);
      }
    } else if s.phase.Swapping? {
      SwapKeepsChain(s, s.phase.stale, s.phase.newer, t);
    } else {
      SameFrames(cv, s, planes, sent, t);
      SameChain(s, t);
    }
  }

  /** The other steps move frames from the queue into the encoder thread's hands. */
  lemma SameFrames(cv: Converter, s: State, planes: Planes, sent: bool, t: State)
    requires AdvanceStep(cv, s, planes, sent, t)
    requires !s.phase.Submitting? && !s.phase.Dropping? && !s.phase.Swapping?
    ensures Held(t.phase) + t.frames == Held(s.phase) + s.frames
    ensures t.comp == s.comp && t.loop == s.loop && t.accepted == s.accepted
    ensures t.enc.shown == s.enc.shown && (Trusted(t) ==> Trusted(s))
  {
    hide Sized;
  }

  lemma EmptyChain(t: State)
    requires Held(t.phase) == [] && t.frames == [] && t.enc.needsFull
    ensures Chained(t)
  {
  }

  lemma SameChain(s: State, t: State)
    requires Chained(s) && Held(t.phase) + t.frames == Held(s.phase) + s.frames
    requires t.accepted == s.accepted && t.enc.shown == s.enc.shown && (Trusted(t) ==> Trusted(s))
    ensures Chained(t)
  {
  }

  lemma AdvanceKeepsPlanes(cv: Converter, s: State, planes: Planes, sent: bool, t: State)
    requires EncOk(cv, s) && AdvanceStep(cv, s, planes, sent, t)
    requires !s.phase.Submitting?
    ensures EncOk(cv, t)
  {
    match s.phase {
      case Idle => assert t.enc == s.enc;
      case Dropping(w, h) => assert s.frames == [] ==> t.enc.needsFull;
      case Receiving => assert t.enc == s.enc;
      case Skipping(newest) => assert t.enc == s.enc;
      case Swapping(stale, newer) => assert t.enc == s.enc;
      case Fitting(frame) => assert t.enc == s.enc || t.enc.needsFull;
      case Steering(frame) => assert t.enc == s.enc;
    }
  }

  lemma DropHead(s: State, t: State)
    requires Chained(s) && s.phase.Dropping? && s.frames != []
    requires t == s.(frames := s.frames[1..], returned := s.returned + [s.frames[0].buf])
    ensures Chained(t)
  {
    assert Chain(s) == s.frames && Chain(t) == s.frames[1..];
    forall i, j | 0 <= i && j == i + 1 < |t.frames| ensures Link(t.frames[i], t.frames[j]) {
      assert Link(s.frames[i + 1], s.frames[j + 1]);
    }
  }

  lemma SwapKeepsChain(s: State, stale: Frame, newer: Frame, t: State)
    requires Chained(s) && s.phase == Swapping(stale, newer)
    requires t == s.(returned := s.returned + [stale.buf], phase := Skipping(TakeOver(stale, newer)))
    ensures Chained(t)
  {
    hide SizeOk, Bytes, Row, RowIn;
    var a, b := Chain(s), Chain(t);
    assert a == [stale, newer] + s.frames && b == [TakeOver(stale, newer)] + s.frames;
    assert FrameOk(a[1]) && Link(a[0], a[1]);
    forall i | 0 <= i < |b| ensures FrameOk(b[i]) {
      assert i > 0 ==> b[i] == a[i + 1];
    }
    if Trusted(s) {
      TakeOverLinks(s.enc.shown, stale, newer);
    }
    forall i, j | 0 <= i && j == i + 1 < |b| ensures Link(b[i], b[j]) {
      assert Link(a[i + 1], a[j + 1]);
    }
  }

  /** The heart of it: every submission leaves the YUV frame equal to the full
      conversion of the submitted frame, at the frame's own size, and the short-buffer
      bail is never taken. */
  lemma SubmitConvertsInFull(cv: Converter, s: State, f: Frame, planes: Planes, sent: bool, t: State)
    requires PictureInv(cv, s) && s.phase == Submitting(f) && SubmitStep(cv, s, f, planes, sent, t)
    ensures s.enc.w == f.w && s.enc.h == f.h && |f.data| == Bytes(s.enc.w, s.enc.h)
    ensures t.enc.shown == f && t.enc.w == f.w && t.enc.h == f.h
    ensures t.enc.planes == FullConvert(cv, Rows(f))
    ensures !(s.enc.needsFull || s.force || f.damage == []) ==> s.enc.planes == FullConvert(cv, Rows(s.enc.shown))
  {
    assert Chain(s)[0] == f;
    assert Viewed(f, s.enc.w, s.enc.h) == f;
    if !s.enc.needsFull {
      ConvertedIsFull(cv, s.enc.shown, s.enc.planes, f, s.enc.needsFull || s.force, planes);
    }
  }

  lemma SubmitKeepsChain(cv: Converter, s: State, f: Frame, t: State)
    requires Chained(s) && s.phase == Submitting(f) && t.phase == Idle && t.enc.shown == f
    requires t.frames == s.frames && t.accepted == s.accepted
    ensures Chained(t)
  {
    var a, b := Chain(s), Chain(t);
    assert a == [f] + b;
    TailLinked(f, b);
    hide FrameOk, Link, Linked, SamePicture;
    assert a[|a| - 1] == if b == [] then f else b[|b| - 1];
  }

  lemma TailLinked(f: Frame, rest: seq<Frame>)
    requires Linked([f] + rest) && forall i | 0 <= i < |[f] + rest| :: FrameOk(([f] + rest)[i])
    ensures Linked(rest) && (forall i | 0 <= i < |rest| :: FrameOk(rest[i]))
    ensures FrameOk(f) && (rest != [] ==> Link(f, rest[0]))
  {
    hide FrameOk, Link;
    var all := [f] + rest;
    assert all[0] == f && forall i | 0 <= i < |rest| :: rest[i] == all[i + 1];
    forall i, j | 0 <= i && j == i + 1 < |rest| ensures Link(rest[i], rest[j]) {
      assert Link(all[i + 1], all[j + 1]);
    }
    if rest != [] {
      assert Link(all[0], all[1]);
    }
  }

  // ---------------------------------------------------------------- all runs

  lemma InitInv(cv: Converter, s: State)
    requires Init(s)
    ensures PictureInv(cv, s)
  {
    assert s.comp.damage[0] == Full(s.comp.w, s.comp.h);
    FullBehind(s.accepted, s.comp);
  }

  lemma ResceneKeeps(cv: Converter, s: State, t: State)
    requires PictureInv(cv, s) && CompOk(t.comp) && Behind(t.accepted, t.comp) && t.loop.Waiting?
    requires t.frames == s.frames && t.phase == s.phase && t.enc == s.enc && t.accepted == s.accepted
    ensures PictureInv(cv, t)
  {
    hide FrameOk, Link, Linked, FullConvert, CompOk, Behind;
    assert Chain(t) == Chain(s);
  }

  lemma NextInv(cv: Converter, s: State, step: Step, t: State)
    requires PictureInv(cv, s) && Next(cv, s, step, t)
    ensures PictureInv(cv, t)
  {
    hide FrameOk, Link, Linked, Shows, Behind, Carries, Chained, EncOk, DrawStep, AdvanceStep;
    match step {
      case Commit(after, report) =>
        CommitKeeps(s.comp, s.accepted, after, report);
        ResceneKeeps(cv, s, t);
      case ChangeWindows(after) =>
        FullDamageKeeps(s.comp.(scene := after), s.accepted);
        ResceneKeeps(cv, s, t);
      case Resize(w, h) =>
        FullDamageKeeps(s.comp.(w := w, h := h), s.accepted);
        ResceneKeeps(cv, s, t);
      case Begin =>
        SameViewKeeps(cv, s, t);
      case Recycle(newClient) =>
        SameViewKeeps(cv, s, t);
      case Request(due) =>
        SameViewKeeps(cv, s, t);
      case Draw(canvas, bands) =>
        DrawKeeps(cv, s, canvas, bands, t);
      case Offer =>
        OfferKeeps(cv, s);
      case Ask =>
        SameViewKeeps(cv, s, t);
      case ChangeRate(bps) =>
        SameViewKeeps(cv, s, t);
      case Advance(planes, sent) =>
        AdvanceKeeps(cv, s, planes, sent, t);
    }
  }

  lemma {:induction false} RunInv(cv: Converter, states: seq<State>, steps: seq<Step>, i: nat)
    requires Run(cv, states, steps) && i <= |steps|
    ensures PictureInv(cv, states[i])
  {
    hide Next, Init, PictureInv;
    if i == 0 {
      InitInv(cv, states[0]);
    } else {
      RunInv(cv, states, steps, i - 1);
      NextInv(cv, states[i - 1], steps[i - 1], states[i]);
    }
  }

  // ---------------------------------------------------------------- the picture on screen

  /** Full damage makes the canvas truthful, whatever went before. */
  lemma FullDamageIsTruthful(c: Comp)
    ensures Truthful(Damaged(c, Full(c.w, c.h)))
  {
    var d := Damaged(c, Full(c.w, c.h));
    FullInAccumulate(c.damage, Full(c.w, c.h));
    FullShows(d.scene, d.canvas, d.w, d.h, d.damage, []);
    assert d.damage + [] == d.damage;
  }

  lemma CommitIsTruthful(c: Comp, after: Scene, report: Option<Rect>)
    requires Truthful(c) && ChangesWithin(c.scene, after, c.w, c.h, Grown(c.damage, report, Full(c.w, c.h)))
    ensures Truthful(c.(scene := after, damage := Grown(c.damage, report, Full(c.w, c.h))))
  {
    var grown := Grown(c.damage, report, Full(c.w, c.h));
    CommitIsSoundIff(c.scene, after, c.canvas, c.w, c.h, c.damage, [], report);
    assert c.damage + [] == c.damage && grown + [] == grown;
  }

  /** A redrawn canvas stays truthful under any damage. */
  lemma RedrawIsTruthful(c: Comp, canvas: seq<Byte>, damage: seq<Rect>)
    requires IsRedraw(c.scene, canvas, c.w, c.h)
    ensures Truthful(c.(canvas := canvas, damage := damage))
  {
  }

  lemma TruthfulIsRedraw(c: Comp)
    requires Truthful(c) && c.damage == [] && |c.canvas| == Bytes(c.w, c.h)
    ensures IsRedraw(c.scene, c.canvas, c.w, c.h)
  {
    forall x: nat, y: nat | x < c.w && y < c.h ensures PixelAt(c.canvas, c.w, c.h, x, y) == ScenePixel(c.scene, x, y) {
      assert !Covers(c.damage, x, y);
    }
  }

  /** An honest step keeps the canvas truthful; a resize or a change of the windows makes
      it so. */
  lemma TruthKept(cv: Converter, s: State, step: Step, t: State)
    requires PictureInv(cv, s) && Next(cv, s, step, t)
    requires (Truthful(s.comp) && Honest(s, step)) || step.Resize? || step.ChangeWindows?
    ensures Truthful(t.comp)
  {
    hide Truthful, Rendered, Repainted, ChangesWithin, Grown, Chained, EncOk, Behind, AdvanceStep, Carries;
    match step {
      case Commit(after, report) => CommitIsTruthful(s.comp, after, report);
      case ChangeWindows(after) => FullDamageIsTruthful(s.comp.(scene := after));
      case Resize(w, h) => FullDamageIsTruthful(s.comp.(w := w, h := h));
      case Draw(canvas, bands) =>
        DrawIsRedraw(s.comp, canvas, bands);
        RedrawIsTruthful(s.comp, canvas, []);
      case Offer =>
        CarriedFits(s.accepted, s.comp, s.loop.frame);
        TruthfulIsRedraw(s.comp);
        RedrawIsTruthful(s.comp, s.comp.canvas, t.comp.damage);
      case Advance(planes, sent) =>
        AdvanceKeepsComp(cv, s, planes, sent, t);
      case _ =>
    }
  }

  lemma DrawIsRedraw(c: Comp, canvas: seq<Byte>, bands: seq<Band>)
    requires Truthful(c) && WellFormed(c.scene) && Rendered(c.scene, c.w, c.h, c.canvas, c.damage, canvas, bands)
    ensures IsRedraw(c.scene, canvas, c.w, c.h)
  {
    RenderIsRedraw(c.scene, c.w, c.h, c.canvas, c.damage, canvas, bands);
  }

  lemma CarriedFits(last: Option<Frame>, c: Comp, frame: Frame)
    requires Carries(last, c, frame)
    ensures c.damage == [] && |c.canvas| == Bytes(c.w, c.h)
  {
  }

  lemma AdvanceKeepsComp(cv: Converter, s: State, planes: Planes, sent: bool, t: State)
    requires AdvanceStep(cv, s, planes, sent, t)
    ensures t.comp == s.comp && t.loop == s.loop
  {
    hide Sized, Converted, Viewed, Bytes;
  }

  /** From a resize, a change of the windows or start-up on, honest steps keep the canvas
      truthful. */
  lemma {:induction false} TruthLasts(cv: Converter, states: seq<State>, steps: seq<Step>, j: nat, i: nat)
    requires Run(cv, states, steps) && j <= i <= |steps|
    requires Truthful(states[j].comp) && forall k | j <= k < i :: Honest(states[k], steps[k])
    ensures Truthful(states[i].comp)
  {
    hide Truthful, Honest, PictureInv, Next;
    if j < i {
      TruthLasts(cv, states, steps, j, i - 1);
      RunInv(cv, states, steps, i - 1);
      TruthKept(cv, states[i - 1], steps[i - 1], states[i]);
    }
  }

  lemma StartIsTruthful(s: State)
    requires Init(s)
    ensures Truthful(s.comp)
  {
    assert s.comp.damage[0] == Full(s.comp.w, s.comp.h);
    FullShows(s.comp.scene, s.comp.canvas, s.comp.w, s.comp.h, s.comp.damage, []);
    assert s.comp.damage + [] == s.comp.damage;
  }
}
