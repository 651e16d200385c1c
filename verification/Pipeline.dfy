/** The damage-driven pipeline as interleaved steps of two threads, each step at most
    one channel operation: the capture loop, which commits, resizes, and in a tick
    recycles buffers, asks for a keyframe, renders and offers the frame; and the encoder
    thread, which receives, skips, refits, listens and submits. */
module Pipeline {
  import opened Image
  import opened Options
  import opened Compose
  import opened Damage
  import opened Compositor
  import opened Convert
  import opened Frames
  import opened Encoder

  const FRAME_QUEUE: nat := 4
  const CONTROL_QUEUE: nat := 8

  datatype Comp = Comp(w: nat, h: nat, scene: Scene, damage: seq<Rect>, canvas: seq<Byte>)

  /** Where the encoder thread is in its loop. */
  datatype Phase =
    | Idle
    | Dropping(w: nat, h: nat)
    | Receiving
    | Skipping(newest: Frame)
    | Swapping(stale: Frame, newer: Frame)
    | Fitting(frame: Frame)
    | Steering(frame: Frame)
    | Submitting(frame: Frame)

  /** Where the capture loop is in its tick; between ticks it dispatches clients. */
  datatype Loop =
    | Waiting
    | Recycling
    | Asking
    | Drawing
    | Offering(frame: Frame)

  datatype Backend = Backend(w: nat, h: nat, needsFull: bool, planes: Planes, shown: Frame)

  /** `accepted` is the frame most recently queued, one of `queued` so far; `asked`, `drained` and `served`
      count keyframe requests queued, received by the encoder and honoured, `forced`
      the submissions forced to be keyframes; `nextBuf` names the next allocation. */
  datatype State = State(
    comp: Comp,
    loop: Loop,
    frames: seq<Frame>,
    resize: Option<(nat, nat)>,
    control: seq<Control>,
    returned: seq<nat>,
    spare: seq<nat>,
    nextBuf: nat,
    phase: Phase,
    enc: Backend,
    force: bool,
    accepted: Option<Frame>,
    queued: nat,
    asked: nat,
    drained: nat,
    served: nat,
    forced: nat)

  datatype Step =
    | Commit(after: Scene, report: Option<Rect>)
    | ChangeWindows(after: Scene)
    | Resize(w: nat, h: nat)
    | Begin
    | Recycle(newClient: bool)
    | Request(due: bool)
    | Draw(canvas: seq<Byte>, bands: seq<Band>)
    | Offer
    | Ask
    | ChangeRate(bps: nat)
    | Advance(planes: Planes, sent: bool)

  // ---------------------------------------------------------------- capture loop

  function Damaged(c: Comp, rect: Rect): Comp {
    c.(damage := Accumulate(c.damage, rect, Full(c.w, c.h)))
  }

  function AskKeyframe(s: State): State {
    if |s.control| < CONTROL_QUEUE then s.(control := s.control + [ForceKeyframe], asked := s.asked + 1) else s
  }

  /** One look at the return channel: a buffer to recycle, or, with none left, the
      decision whether there is anything to render. */
  function Recycled(s: State, newClient: bool): State {
    if s.returned != [] then s.(spare := s.spare + [s.returned[0]], returned := s.returned[1..])
    else if s.comp.damage == [] && !newClient then s.(loop := Waiting)
    else s.(loop := Asking)
  }

  /** A due keyframe is asked for, if the control queue has room. */
  function Requested(s: State, due: bool): State {
    (if due then AskKeyframe(s) else s).(loop := Drawing)
  }

  /** The buffer a render writes into: the last spare one, or a new one. */
  function RenderBuffer(s: State): nat {
    if s.spare == [] then s.nextBuf else s.spare[|s.spare| - 1]
  }

  function Captured(s: State, canvas: seq<Byte>, bands: seq<Band>): Frame {
    Frame(s.comp.w, s.comp.h, canvas, bands, RenderBuffer(s), s.asked, s.queued)
  }

  function Drawn(s: State, canvas: seq<Byte>, bands: seq<Band>): State {
    s.(comp := s.comp.(canvas := canvas, damage := []),
       loop := Offering(Captured(s, canvas, bands)),
       nextBuf := if s.spare == [] then s.nextBuf + 1 else s.nextBuf,
       spare := if s.spare == [] then [] else s.spare[..|s.spare| - 1])
  }

  /** The rendered frame is queued, or, with the queue full, freed and its rows
      re-marked as damage. */
  function Offered(s: State): State
    requires s.loop.Offering?
  {
    var frame := s.loop.frame.(asks := s.asked, serial := s.queued);
    if |s.frames| < FRAME_QUEUE then
      s.(loop := Waiting, frames := s.frames + [frame], accepted := Some(frame), queued := s.queued + 1)
    else
      s.(loop := Waiting, comp := s.comp.(damage := Readd([], frame.damage, s.comp.w, s.comp.h)))
  }

  ghost predicate DrawStep(s: State, canvas: seq<Byte>, bands: seq<Band>, t: State) {
    var c := s.comp;
    s.loop.Drawing? && Repainted(c.w, c.h, c.canvas, c.damage, canvas, bands) && t == Drawn(s, canvas, bands)
  }

  // ---------------------------------------------------------------- encoder thread

  function ReadControl(s: State): State
    requires s.control != []
  {
    var t := s.(control := s.control[1..]);
    if s.control[0].ForceKeyframe? then t.(force := true, drained := s.drained + 1) else t
  }

  function Reinitialized(s: State, w: nat, h: nat, blank: Planes): State {
    s.(enc := s.enc.(w := w, h := h, needsFull := true, planes := blank))
  }

  ghost predicate SubmitStep(cv: Converter, s: State, f: Frame, planes: Planes, sent: bool, t: State) {
    var u := s.(phase := Idle, force := false, returned := s.returned + [f.buf],
                served := if s.force then s.drained else s.served,
                forced := if s.force then s.forced + 1 else s.forced);
    if |f.data| < Bytes(s.enc.w, s.enc.h) then t == u
    else
      && Sized(s.enc.planes, s.enc.h) && Sized(planes, s.enc.h)
      && Converted(cv, s.enc.planes, Viewed(f, s.enc.w, s.enc.h), s.enc.needsFull || s.force, planes)
      && t == u.(enc := s.enc.(planes := planes, shown := f, needsFull := s.enc.needsFull && !sent))
  }

  ghost predicate AdvanceStep(cv: Converter, s: State, planes: Planes, sent: bool, t: State) {
    match s.phase
    case Idle =>
      if s.control != [] then t == ReadControl(s)
      else if s.resize.Some? then t == s.(phase := Dropping(s.resize.value.0, s.resize.value.1), resize := None)
      else t == s.(phase := Receiving)
    case Dropping(w, h) =>
      if s.frames != [] then t == s.(frames := s.frames[1..], returned := s.returned + [s.frames[0].buf])
      else Sized(planes, h) && t == Reinitialized(s, w, h, planes).(phase := Receiving)
    case Receiving =>
      s.frames != [] && t == s.(frames := s.frames[1..], phase := Skipping(s.frames[0]))
    case Skipping(newest) =>
      if s.frames != [] then t == s.(frames := s.frames[1..], phase := Swapping(newest, s.frames[0]))
      else t == s.(phase := Fitting(newest))
    case Swapping(stale, newer) =>
      t == s.(returned := s.returned + [stale.buf], phase := Skipping(TakeOver(stale, newer)))
    case Fitting(frame) =>
      if frame.w == s.enc.w && frame.h == s.enc.h then t == s.(phase := Steering(frame))
      else Sized(planes, frame.h) && t == Reinitialized(s, frame.w, frame.h, planes).(phase := Steering(frame))
    case Steering(frame) =>
      if s.control != [] then t == ReadControl(s)
      else t == s.(phase := Submitting(frame))
    case Submitting(frame) =>
      SubmitStep(cv, s, frame, planes, sent, t)
  }

  // ---------------------------------------------------------------- the machine

  ghost predicate Init(s: State) {
    && SizeOk(s.comp.w, s.comp.h)
    && s.comp.scene == [] && s.comp.damage == [Full(s.comp.w, s.comp.h)] && s.comp.canvas == []
    && s.loop == Waiting && s.frames == [] && s.resize == None && s.control == []
    && s.returned == [] && s.spare == [] && s.nextBuf == 0
    && s.phase == Idle && !s.force && s.accepted == None
    && s.enc.needsFull && Sized(s.enc.planes, s.enc.h)
    && s.queued == s.asked == s.drained == s.served == s.forced == 0
  }

  ghost predicate Next(cv: Converter, s: State, step: Step, t: State) {
    match step
    case Commit(after, report) =>
      s.loop.Waiting? && t == s.(comp := s.comp.(scene := after, damage := Grown(s.comp.damage, report, Full(s.comp.w, s.comp.h))))
    case ChangeWindows(after) =>
      && s.loop.Waiting?
      && t == s.(comp := Damaged(s.comp.(scene := after), Full(s.comp.w, s.comp.h)))
    case Resize(w, h) =>
      && s.loop.Waiting? && SizeOk(w, h)
      && t == s.(comp := Damaged(s.comp.(w := w, h := h), Full(w, h)), resize := Some((w, h)))
    case Begin => s.loop.Waiting? && t == s.(loop := Recycling)
    case Recycle(newClient) => s.loop.Recycling? && t == Recycled(s, newClient)
    case Request(due) => s.loop.Asking? && t == Requested(s, due)
    case Draw(canvas, bands) => DrawStep(s, canvas, bands, t)
    case Offer => s.loop.Offering? && t == Offered(s)
    case Ask => |s.control| < CONTROL_QUEUE && t == AskKeyframe(s)
    case ChangeRate(bps) => |s.control| < CONTROL_QUEUE && t == s.(control := s.control + [ChangeBitrate(bps)])
    case Advance(planes, sent) => AdvanceStep(cv, s, planes, sent, t)
  }

  /** The steps of each thread; requests and rate changes come from others. */
  predicate ByEncoder(step: Step) { step.Advance? }
  predicate ByLoop(step: Step) { step.Begin? || step.Recycle? || step.Request? || step.Draw? || step.Offer? }

  ghost predicate Moves(cv: Converter, own: Step -> bool, s: State, t: State) {
    exists step :: own(step) && Next(cv, s, step, t)
  }

  /** A finite run of one thread's steps, from its first to its last state. */
  ghost predicate Path(cv: Converter, own: Step -> bool, p: seq<State>) {
    p != [] && forall i, j | 0 <= i && j == i + 1 < |p| :: Moves(cv, own, p[i], p[j])
  }

  ghost predicate Reaches(cv: Converter, own: Step -> bool, s: State, t: State) {
    exists p :: Path(cv, own, p) && p[0] == s && p[|p| - 1] == t
  }

  lemma Stays(cv: Converter, own: Step -> bool, s: State)
    ensures Reaches(cv, own, s, s)
  {
    assert Path(cv, own, [s]);
  }

  lemma OneStep(cv: Converter, own: Step -> bool, s: State, step: Step, t: State)
    requires own(step) && Next(cv, s, step, t)
    ensures Reaches(cv, own, s, t)
  {
    hide Next;
    assert Moves(cv, own, s, t);
    var p := [s, t];
    assert Path(cv, own, p) && p[0] == s && p[|p| - 1] == t;
  }

  lemma Onward(cv: Converter, own: Step -> bool, s: State, t: State, u: State)
    requires Reaches(cv, own, s, t) && Reaches(cv, own, t, u)
    ensures Reaches(cv, own, s, u)
  {
    hide Moves;
    var p :| Path(cv, own, p) && p[0] == s && p[|p| - 1] == t;
    var q :| Path(cv, own, q) && q[0] == t && q[|q| - 1] == u;
    var r := p + q[1..];
    forall i, j | 0 <= i && j == i + 1 < |r| ensures Moves(cv, own, r[i], r[j]) {
      if j >= |p| {
        assert r[i] == q[i + 1 - |p|] && r[j] == q[j + 1 - |p|];
      }
    }
    assert Path(cv, own, r) && r[0] == s && r[|r| - 1] == u;
  }

  /** Any finite interleaving from the start. */
  ghost predicate Run(cv: Converter, states: seq<State>, steps: seq<Step>) {
    && |states| == |steps| + 1 && Init(states[0])
    && forall i | 0 <= i < |steps| :: Next(cv, states[i], steps[i], states[i + 1])
  }

  // ---------------------------------------------------------------- invariants

  ghost predicate CompOk(c: Comp) {
    SizeOk(c.w, c.h) && Bounded(c.damage, Full(c.w, c.h))
  }

  /** The canvas shows the scene outside the damage. */
  ghost predicate Truthful(c: Comp) {
    Shows(c.scene, c.canvas, c.w, c.h, c.damage)
  }

  /** What the picture on screen, as against its conversion, depends on: a commit changes
      it only inside the damage it leaves, and a render finds buffers whose rows do not
      overlap and that nobody writes meanwhile. Resizes and changes of the windows ask
      for nothing. */
  ghost predicate Honest(s: State, step: Step) {
    match step
    case Commit(after, report) =>
      ChangesWithin(s.comp.scene, after, s.comp.w, s.comp.h, Grown(s.comp.damage, report, Full(s.comp.w, s.comp.h)))
    case Draw(canvas, bands) =>
      WellFormed(s.comp.scene) && Rendered(s.comp.scene, s.comp.w, s.comp.h, s.comp.canvas, s.comp.damage, canvas, bands)
    case _ => true
  }

  /** Every canvas row without damage is the row of the frame last accepted. */
  ghost predicate Behind(last: Option<Frame>, c: Comp) {
    forall r: nat | r < c.h && !RowDirty(c.damage, c.w, r) :: SameRow(last, c, r)
  }

  ghost predicate SameRow(last: Option<Frame>, c: Comp, r: nat) {
    && last.Some? && FrameOk(last.value) && |c.canvas| == Bytes(c.w, c.h)
    && last.value.w == c.w && last.value.h == c.h && r < c.h
    && Row(last.value.data, c.w, c.h, r) == Row(c.canvas, c.w, c.h, r)
  }

  /** Frames the encoder thread has taken off the queue but not yet converted. */
  function Held(p: Phase): seq<Frame> {
    match p
    case Skipping(newest) => [newest]
    case Swapping(stale, newer) => [stale, newer]
    case Fitting(frame) => [frame]
    case Steering(frame) => [frame]
    case Submitting(frame) => [frame]
    case _ => []
  }

  function Chain(s: State): seq<Frame> { Held(s.phase) + s.frames }

  /** The YUV frame will be built upon, not replaced, by the next conversion. */
  predicate Trusted(s: State) { !s.enc.needsFull && !s.phase.Dropping? }

  /** The chain of links: the converted frame, then held and queued ones, up to the
      frame last accepted. */
  ghost predicate Chained(s: State) {
    var chain := Chain(s);
    && (forall i | 0 <= i < |chain| :: FrameOk(chain[i]))
    && Linked(chain)
    && (Trusted(s) && chain != [] ==> Link(s.enc.shown, chain[0]))
    && (chain != [] ==> s.accepted.Some? && SamePicture(s.accepted.value, chain[|chain| - 1]))
    && (Trusted(s) && chain == [] ==> s.accepted.Some? && SamePicture(s.accepted.value, s.enc.shown))
  }

  /** Unless a full conversion is due, the YUV frame is the conversion of `shown`;
      a frame about to be submitted has the encoder's size. */
  ghost predicate EncOk(cv: Converter, s: State) {
    var e := s.enc;
    && Sized(e.planes, e.h)
    && (!e.needsFull ==> FrameOk(e.shown) && e.shown.w == e.w && e.shown.h == e.h && e.planes == FullConvert(cv, Rows(e.shown)))
    && (s.phase.Steering? || s.phase.Submitting? ==> s.phase.frame.w == e.w && s.phase.frame.h == e.h)
  }

  /** A rendered frame not yet offered is the canvas; the rows it does not report are
      those of the frame last accepted. */
  ghost predicate Carries(last: Option<Frame>, c: Comp, frame: Frame) {
    && FrameOk(frame) && frame.w == c.w && frame.h == c.h && frame.data == c.canvas && c.damage == []
    && forall r: nat | r < c.h && !RowIn(frame.damage, r) :: SameRow(last, c, r)
  }

  ghost predicate Lagging(s: State) {
    if s.loop.Offering? then Carries(s.accepted, s.comp, s.loop.frame) else Behind(s.accepted, s.comp)
  }

  ghost predicate PictureInv(cv: Converter, s: State) {
    CompOk(s.comp) && Lagging(s) && Chained(s) && EncOk(cv, s)
  }
}
