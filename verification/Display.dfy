/** The native client's display loop: the order of window configures, pending resizes
    and decoded frames, and what it means for the size of every commit. */
module Display {
  import opened Image
  import opened Options
  import opened ShmHistory
  import opened ShmSlots
  import opened ShmRendering

  /** A window configure; a missing dimension leaves the choice to the client. */
  datatype Configure = Configure(w: Option<nat>, h: Option<nat>)

  /** What the client dispatches, and, as the compositor runs on its own, the buffers it
      lets go of before and in between. */
  datatype Event = Configured(c: Configure) | Freed(buf: nat) | Released

  /** The buffers in use and the releases on their way, after one event. */
  function OnWire(wire: (set<nat>, seq<nat>), e: Event): (set<nat>, seq<nat>) {
    match e
    case Configured(_) => wire
    case Freed(b) => if b in wire.0 then (wire.0 - {b}, wire.1 + [b]) else wire
    case Released => if wire.1 != [] then (wire.0, wire.1[1..]) else wire
  }

  function OnWires(wire: (set<nat>, seq<nat>), events: seq<Event>): (set<nat>, seq<nat>) {
    if events == [] then wire else OnWire(OnWires(wire, events[..|events| - 1]), events[|events| - 1])
  }

  datatype Window = Window(w: nat, h: nat, configured: bool, pending: Option<(nat, nat)>)

  function Asked(o: Option<nat>, current: nat): nat { if o.Some? then o.value else current }

  /** One configure: the first one ever is taken silently, a later one that changes
      the size asks for a resize. */
  function OnConfigure(win: Window, c: Configure): Window {
    var w, h := Asked(c.w, win.w), Asked(c.h, win.h);
    if !win.configured then Window(w, h, true, win.pending)
    else if (w, h) != (win.w, win.h) then Window(w, h, true, Some((w, h)))
    else win
  }

  /** Whatever came before, a configure gives the window the size it names, and keeps a
      dimension it leaves open; from the second on, a resize to that size is pending if
      that is a change. */
  lemma ConfigureTakes(win: Window, c: Configure)
    ensures var next := OnConfigure(win, c);
            && next.configured
            && next.w == (match c.w case Some(v) => v case None => win.w)
            && next.h == (match c.h case Some(v) => v case None => win.h)
            && next.pending == if win.configured && (next.w != win.w || next.h != win.h) then Some((next.w, next.h)) else win.pending
  {
  }

  function OnEvent(win: Window, e: Event): Window {
    if e.Configured? then OnConfigure(win, e.c) else win
  }

  function OnEvents(win: Window, events: seq<Event>): Window {
    if events == [] then win else OnEvent(OnEvents(win, events[..|events| - 1]), events[|events| - 1])
  }

  /** The window has the size the last configure named, whatever else was dispatched. */
  lemma {:induction false} LastConfigureCounts(win: Window, events: seq<Event>, k: nat, w: nat, h: nat)
    requires k < |events| && events[k] == Configured(Configure(Some(w), Some(h)))
    requires forall j | k < j < |events| :: !events[j].Configured?
    ensures OnEvents(win, events).w == w && OnEvents(win, events).h == h && OnEvents(win, events).configured
  {
    var n := |events| - 1;
    if k < n {
      LastConfigureCounts(win, events[..n], k, w, h);
    } else {
      ConfigureTakes(OnEvents(win, events[..n]), events[n].c);
    }
  }

  function OnSynthetic(win: Window, size: Option<(nat, nat)>): Window {
    if size.Some? && size.value != (win.w, win.h) then win.(w := size.value.0, h := size.value.1, pending := size) else win
  }

  /** An injected size is the window's afterwards, and pending exactly if it is new. */
  lemma InjectTakes(win: Window, size: (nat, nat))
    ensures var next := OnSynthetic(win, Some(size));
            && (next.w, next.h) == size && next.configured == win.configured
            && next.pending == if (win.w, win.h) == size then win.pending else Some(size)
  {
  }

  /** The size the renderer has once the pending resize, if any, is applied. */
  function Target(win: Window, renderer: (nat, nat)): (nat, nat) {
    if win.pending.Some? then win.pending.value else renderer
  }

  /** The renderer will have the window's size before the next frame is drawn. */
  predicate InStep(win: Window, renderer: (nat, nat)) {
    Target(win, renderer) == (win.w, win.h)
  }

  /** A configure keeps window and renderer in step exactly when it is not a first
      configure that arrives late with another size. */
  lemma ConfigureKeepsStep(win: Window, renderer: (nat, nat), c: Configure)
    requires InStep(win, renderer)
    ensures InStep(OnConfigure(win, c), renderer)
       <==> win.configured || (Asked(c.w, win.w), Asked(c.h, win.h)) == (win.w, win.h)
  {
  }

  /** Out of step, a configure helps exactly if it changes the size once more. */
  lemma OnlyAChangeRepairs(win: Window, renderer: (nat, nat), c: Configure)
    requires win.configured && win.pending == None && (win.w, win.h) != renderer
    ensures InStep(OnConfigure(win, c), renderer)
       <==> (Asked(c.w, win.w), Asked(c.h, win.h)) != (win.w, win.h)
  {
  }

  // ---------------------------------------------------------------- runs of the loop

  datatype Display = Display(win: Window, renderer: (nat, nat))

  /** What the loop does to sizes: dispatch an event, take an injected size, apply a
      pending resize. */
  datatype Act = Dispatch(e: Event) | Inject(size: (nat, nat)) | Apply

  function Do(d: Display, a: Act): Display {
    match a
    case Dispatch(e) => d.(win := OnEvent(d.win, e))
    case Inject(size) => d.(win := OnSynthetic(d.win, Some(size)))
    case Apply => Display(d.win.(pending := None), Target(d.win, d.renderer))
  }

  function DoAll(d: Display, acts: seq<Act>): Display {
    if acts == [] then d else Do(DoAll(d, acts[..|acts| - 1]), acts[|acts| - 1])
  }

  predicate Resizes(d: Display, a: Act) {
    (Do(d, a).win.w, Do(d, a).win.h) != (d.win.w, d.win.h)
  }

  /** The last change of the window's size came from the first configure ever. */
  predicate Stale(d: Display, acts: seq<Act>) {
    acts != [] &&
    var before, last := DoAll(d, acts[..|acts| - 1]), acts[|acts| - 1];
    if Resizes(before, last) then last.Dispatch? && !before.win.configured else Stale(d, acts[..|acts| - 1])
  }

  /** From a display in step, along any acts: it is in step again exactly unless the
      last change of size came from a first configure that was late. */
  lemma {:induction false} InStepIffNotStale(d: Display, acts: seq<Act>)
    requires InStep(d.win, d.renderer)
    ensures var e := DoAll(d, acts);
            && (InStep(e.win, e.renderer) <==> !Stale(d, acts))
            && (Stale(d, acts) ==> e.win.configured && !d.win.configured)
            && (d.win.configured ==> e.win.configured)
  {
    if acts != [] {
      InStepIffNotStale(d, acts[..|acts| - 1]);
    }
  }

  lemma {:induction false} DoMore(d: Display, a: seq<Act>, b: seq<Act>)
    ensures DoAll(d, a + b) == DoAll(DoAll(d, a), b)
  {
    if b == [] {
      assert a + b == a;
    } else {
      assert (a + b)[..|a + b| - 1] == a + b[..|b| - 1];
      DoMore(d, a, b[..|b| - 1]);
    }
  }

  /** What one turn of the loop sees. */
  datatype Input = Input(events: seq<Event>, synthetic: Option<(nat, nat)>, frames: seq<Decoded>, disconnected: bool)

  function Dispatched(events: seq<Event>): seq<Act> {
    seq(|events|, i requires 0 <= i < |events| => Dispatch(events[i]))
  }

  function ActsOf(input: Input): seq<Act> {
    Dispatched(input.events) + (if input.synthetic.Some? then [Inject(input.synthetic.value)] else []) + [Apply]
  }

  /** A resize is pending when the turn comes to apply it. */
  predicate Resized(win: Window, input: Input) {
    OnSynthetic(OnEvents(win, input.events), input.synthetic).pending.Some?
  }

  function AllActs(inputs: seq<Input>): seq<Act> {
    if inputs == [] then [] else AllActs(inputs[..|inputs| - 1]) + ActsOf(inputs[|inputs| - 1])
  }

  lemma {:induction false} EventsAreActs(d: Display, events: seq<Event>)
    ensures DoAll(d, Dispatched(events)) == d.(win := OnEvents(d.win, events))
  {
    if events != [] {
      EventsAreActs(d, events[..|events| - 1]);
      assert Dispatched(events)[..|events| - 1] == Dispatched(events[..|events| - 1]);
    }
  }

  /** A turn is its acts. */
  lemma TurnIsActs(d: Display, input: Input)
    ensures var seen := OnSynthetic(OnEvents(d.win, input.events), input.synthetic);
            DoAll(d, ActsOf(input)) == Display(seen.(pending := None), Target(seen, d.renderer))
  {
    var a := Dispatched(input.events);
    var b := if input.synthetic.Some? then [Inject(input.synthetic.value)] else [];
    EventsAreActs(d, input.events);
    DoMore(d, a + b, [Apply]);
    DoMore(d, a, b);
    OneAct(DoAll(d, a + b), Apply);
    if input.synthetic.Some? {
      OneAct(DoAll(d, a), Inject(input.synthetic.value));
    }
  }

  lemma OneAct(d: Display, a: Act)
    ensures DoAll(d, [a]) == Do(d, a) && DoAll(d, []) == d
  {
    assert [a][..0] == [];
  }

  /** After every turn of any run the renderer, and so each commit of that turn, has the
      window's size exactly unless the last change of size since start-up came from a
      first configure. */
  lemma RendererHasWindowSizeIff(start: Display, inputs: seq<Input>)
    requires InStep(start.win, start.renderer) && inputs != []
    ensures var d := DoAll(start, AllActs(inputs));
            d.renderer == (d.win.w, d.win.h) <==> !Stale(start, AllActs(inputs))
    ensures start.win.configured ==> !Stale(start, AllActs(inputs))
  {
    var acts := AllActs(inputs);
    InStepIffNotStale(start, acts);
    TurnIsActs(DoAll(start, AllActs(inputs[..|inputs| - 1])), inputs[|inputs| - 1]);
    DoMore(start, AllActs(inputs[..|inputs| - 1]), ActsOf(inputs[|inputs| - 1]));
  }

  lemma LastEvent(win: Window, wire: (set<nat>, seq<nat>), events: seq<Event>, n: nat)
    requires n < |events|
    ensures OnEvents(win, events[..n + 1]) == OnEvent(OnEvents(win, events[..n]), events[n])
    ensures OnWires(wire, events[..n + 1]) == OnWire(OnWires(wire, events[..n]), events[n])
  {
    assert events[..n + 1][..n] == events[..n];
  }

  /** A commit of the size the renderer has at the end of turn `n`; from a display in step
      that is the window's size exactly unless the size is stale. */
  predicate SizedInTurn(start: Display, inputs: seq<Input>, c: Commit, n: nat) {
    && 0 < n <= |inputs|
    && var acts := AllActs(inputs[..n]);
       var d := DoAll(start, acts);
       && (c.w, c.h) == d.renderer
       && (InStep(start.win, start.renderer) ==> ((c.w, c.h) == (d.win.w, d.win.h) <==> !Stale(start, acts)))
  }

  /** One of the first `n` turns made the commit. */
  predicate SizedByTurn(start: Display, inputs: seq<Input>, c: Commit, n: nat) {
    exists m :: 0 < m <= n && SizedInTurn(start, inputs, c, m)
  }

  lemma TwoEvents(wire: (set<nat>, seq<nat>), d: Event, e: Event)
    ensures OnWires(wire, [d, e]) == OnWire(OnWire(wire, d), e)
  {
    assert [d, e][..1] == [d] && [d][..0] == [];
    assert OnWires(wire, [d]) == OnWire(wire, d);
  }

  predicate NearTo(frame: Decoded, size: (nat, nat)) {
    Near(frame.w, size.0) && Near(frame.h, size.1)
  }

  class DisplayState {
    var width: nat
    var height: nat
    var configured: bool
    var pendingResize: Option<(nat, nat)>
    const renderer: ShmRenderer

    ghost function Model(): Window
      reads this
    {
      Window(width, height, configured, pendingResize)
    }

    ghost function RendererSize(): (nat, nat)
      reads renderer
    {
      (renderer.width, renderer.height)
    }

    ghost function Sizes(): Display
      reads this, renderer
    {
      Display(Model(), RendererSize())
    }

    ghost function Wired(): (set<nat>, seq<nat>)
      reads renderer
    {
      (renderer.held, renderer.releases)
    }

    /** Start-up: whatever configures the first roundtrip delivered, then a renderer of
        the size the window has by then and a first commit of that size. */
    constructor (initial: (nat, nat), roundtrip: seq<Event>)
      ensures renderer.Valid() && fresh(renderer) && fresh(renderer.slots) && fresh(renderer.Memory())
      ensures Model() == OnEvents(Window(initial.0, initial.1, false, None), roundtrip)
      ensures RendererSize() == (width, height) && InStep(Model(), RendererSize())
      ensures (exists b :: renderer.commits == [Commit(b, width, height)]) && AnyUsable(renderer.slots[..])
      ensures renderer.held == Buffers(renderer.commits) && renderer.releases == []
    {
      hide Disciplined, Recorded, CommitsIn;
      var win := Window(initial.0, initial.1, false, None);
      var start := win;
      for n := 0 to |roundtrip|
        invariant win == OnEvents(start, roundtrip[..n])
        invariant win.pending.Some? ==> win.pending.value == (win.w, win.h)
        invariant win.configured || win.pending.None?
      {
        LastEvent(start, ({}, []), roundtrip, n);
        win := OnEvent(win, roundtrip[n]);
      }
      assert roundtrip[..|roundtrip|] == roundtrip;
      width, height, configured, pendingResize := win.w, win.h, win.configured, win.pending;
      renderer := new ShmRenderer(win.w, win.h);
      new;
      assert Free(renderer.slots[0]) && Free(renderer.slots[1]);
      var primed := renderer.Prime();
      NewBuffers([], renderer.commits);
      assert renderer.commits[0..] == renderer.commits;
      assert Usable(renderer.slots[..][1]);
    }

    method HandleConfigure(c: Configure)
      modifies this
      ensures Model() == OnConfigure(old(Model()), c)
    {
      var w := if c.w.Some? then c.w.value else width;
      var h := if c.h.Some? then c.h.value else height;
      if !configured {
        width := w;
        height := h;
        configured := true;
      } else if (w, h) != (width, height) {
        width := w;
        height := h;
        pendingResize := Some((w, h));
      }
    }

    /** Dispatches the pending window and Release events, while the compositor lets go of
        buffers; none of it commits. */
    method Dispatch(events: seq<Event>)
      requires renderer.Valid()
      modifies this, renderer`held, renderer`releases, renderer`log, renderer.slots
      ensures renderer.Valid() && renderer.Memory() <= old(renderer.Memory()) && old(renderer.log) <= renderer.log
      ensures Model() == OnEvents(old(Model()), events) && Wired() == OnWires(old(Wired()), events)
      ensures AnyUsable(old(renderer.slots[..])) ==> AnyUsable(renderer.slots[..])
    {
      hide Disciplined, Recorded, CommitsIn;
      for n := 0 to |events|
        invariant renderer.Valid() && renderer.Memory() <= old(renderer.Memory()) && old(renderer.log) <= renderer.log
        invariant Model() == OnEvents(old(Model()), events[..n]) && Wired() == OnWires(old(Wired()), events[..n])
        invariant AnyUsable(old(renderer.slots[..])) ==> AnyUsable(renderer.slots[..])
      {
        LastEvent(old(Model()), old(Wired()), events, n);
        match events[n] {
          case Configured(c) => HandleConfigure(c);
          case Freed(b) =>
            if b in renderer.held {
              renderer.ServerRelease(b);
            }
          case Released =>
            if renderer.releases != [] {
              ghost var was := renderer.slots[..];
              renderer.DispatchRelease();
              assert forall i | 0 <= i < NUM_SLOTS && Usable(was[i]) :: Usable(renderer.slots[..][i]);
            }
        }
      }
      assert events[..|events|] == events;
    }

    /** Takes an injected resize, then applies whatever resize is pending and commits a
        buffer of that size at once. */
    method ApplyResize(synthetic: Option<(nat, nat)>)
      requires renderer.Valid()
      modifies this, renderer, renderer.slots
      ensures renderer.Valid() && fresh(renderer.Memory() - old(renderer.Memory())) && old(renderer.log) <= renderer.log
      ensures Model() == OnSynthetic(old(Model()), synthetic).(pending := None)
      ensures old(renderer.commits) <= renderer.commits
      ensures renderer.held == old(renderer.held) + Buffers(renderer.commits[|old(renderer.commits)|..]) && renderer.releases == old(renderer.releases)
      ensures RendererSize() == Target(OnSynthetic(old(Model()), synthetic), old(RendererSize()))
      ensures if OnSynthetic(old(Model()), synthetic).pending.Some? && AnyUsable(old(renderer.slots[..]))
              then |renderer.commits| == |old(renderer.commits)| + 1 && renderer.commits[..|old(renderer.commits)|] == old(renderer.commits)
                   && (renderer.commits[|old(renderer.commits)|].w, renderer.commits[|old(renderer.commits)|].h) == RendererSize()
              else renderer.commits == old(renderer.commits)
      ensures !AnyUsable(old(renderer.slots[..])) ==> !AnyUsable(renderer.slots[..])
      ensures OnSynthetic(old(Model()), synthetic).pending.None? ==> renderer.slots[..] == old(renderer.slots[..])
    {
      hide Disciplined, Recorded, CommitsIn;
      if synthetic.Some? && synthetic.value != (width, height) {
        width, height := synthetic.value.0, synthetic.value.1;
        pendingResize := synthetic;
      }
      if pendingResize.Some? {
        var (w, h) := pendingResize.value;
        pendingResize := None;
        var primed := renderer.ResizeAndPrime(w, h);
      }
      NewBuffers(old(renderer.commits), renderer.commits);
    }

    /** What a turn does before it shows anything. */
    method ResizeFirst(input: Input)
      requires renderer.Valid()
      modifies this, renderer, renderer.slots
      ensures renderer.Valid() && fresh(renderer.Memory() - old(renderer.Memory())) && old(renderer.log) <= renderer.log
      ensures Sizes() == DoAll(old(Sizes()), ActsOf(input))
      ensures old(renderer.commits) <= renderer.commits && |renderer.commits| <= |old(renderer.commits)| + 1
      ensures var wire := OnWires(old(Wired()), input.events);
              renderer.held == wire.0 + Buffers(renderer.commits[|old(renderer.commits)|..]) && renderer.releases == wire.1
      ensures |renderer.commits| > |old(renderer.commits)| ==>
                var c := renderer.commits[|old(renderer.commits)|]; (c.w, c.h) == RendererSize()
      ensures if Resized(old(Model()), input) then |renderer.commits| > |old(renderer.commits)| || !AnyUsable(renderer.slots[..])
              else renderer.commits == old(renderer.commits) && (AnyUsable(old(renderer.slots[..])) ==> AnyUsable(renderer.slots[..]))
    {
      hide Disciplined, Recorded, CommitsIn, OnEvents, OnWires, OnSynthetic, Target, DoAll, ActsOf, Buffers, AnyUsable;
      TurnIsActs(Sizes(), input);
      Dispatch(input.events);
      ApplyResize(input.synthetic);
    }

    /** One turn of the loop: dispatch, injected resize, pending resize, and only then
        the newest of the decoded frames. Every commit it makes has the size the renderer
        has by then; a pending resize is committed and a fitting frame shown unless every
        slot is held. */
    method Tick(input: Input)
      requires renderer.Valid()
      requires forall k | 0 <= k < |input.frames| :: |input.frames[k].pixels| == Bytes(input.frames[k].w, input.frames[k].h)
      modifies this, renderer, renderer.slots, renderer.Memory()
      ensures renderer.Valid() && fresh(renderer.Memory() - old(renderer.Memory())) && old(renderer.log) <= renderer.log
      ensures Sizes() == DoAll(old(Sizes()), ActsOf(input))
      ensures old(renderer.commits) <= renderer.commits
      ensures forall k | |old(renderer.commits)| <= k < |renderer.commits| ::
                (renderer.commits[k].w, renderer.commits[k].h) == RendererSize()
      ensures var wire := OnWires(old(Wired()), input.events);
              renderer.held == wire.0 + Buffers(renderer.commits[|old(renderer.commits)|..]) && renderer.releases == wire.1
      ensures var resized := Resized(old(Model()), input);
              && |renderer.commits| <= |old(renderer.commits)| + (if resized then 2 else 1)
              && (resized ==> |renderer.commits| > |old(renderer.commits)| || !AnyUsable(renderer.slots[..]))
              && (!input.disconnected && input.frames != [] && NearTo(input.frames[|input.frames| - 1], RendererSize()) ==>
                    (|renderer.commits| > |old(renderer.commits)| && renderer.Shows(input.frames[|input.frames| - 1]))
                    || (!AnyUsable(renderer.slots[..]) && (resized || !AnyUsable(old(renderer.slots[..])))))
    {
      hide Disciplined, Recorded, CommitsIn, Shown, Resized, DoAll, ActsOf, OnWires, Buffers, AnyUsable;
      ResizeFirst(input);
      ghost var between := renderer.commits;
      var drained := renderer.TryDrain(input.frames, input.disconnected);
      assert renderer.commits[|old(renderer.commits)|..] == between[|old(renderer.commits)|..] + renderer.commits[|between|..];
      BuffersJoin(between[|old(renderer.commits)|..], renderer.commits[|between|..]);
    }

    /** The loop, for any turns and whatever the compositor releases in between: the
        history of the buffers is orderly, so none is touched while in use; each release
        the client is told of is the oldest one not told yet; a slot is marked released
        exactly while its buffer is with the client; and each commit has the size the
        renderer had at the end of its turn, which is the window's size then exactly
        unless the window's last change came from a late first configure. */
    method RunLoop(inputs: seq<Input>)
      requires renderer.Valid()
      requires forall n, k | 0 <= n < |inputs| && 0 <= k < |inputs[n].frames| ::
                 |inputs[n].frames[k].pixels| == Bytes(inputs[n].frames[k].w, inputs[n].frames[k].h)
      modifies this, renderer, renderer.slots, renderer.Memory()
      ensures renderer.Valid() && Sizes() == DoAll(old(Sizes()), AllActs(inputs))
      ensures old(renderer.log) <= renderer.log && Orderly(renderer.log)
      ensures LetGoIn(renderer.log) == ToldIn(renderer.log) + renderer.releases
      ensures forall i | 0 <= i < NUM_SLOTS && renderer.slots[i].Some? ::
                renderer.slots[i].value.released <==> StatusOf(renderer.log, renderer.slots[i].value.buf).Idle?
      ensures CommitsIn(renderer.log) == renderer.commits && old(renderer.commits) <= renderer.commits
      ensures forall k | |old(renderer.commits)| <= k < |renderer.commits| ::
                SizedByTurn(old(Sizes()), inputs, renderer.commits[k], |inputs|)
    {
      hide Disciplined, Recorded, CommitsIn, Orderly, LetGoIn, ToldIn, StatusOf, DoAll, ActsOf, OnEvents, OnWires, Stale;
      ghost var start := Sizes();
      DoNothing(start);
      for n := 0 to |inputs|
        invariant renderer.Valid() && fresh(renderer.Memory() - old(renderer.Memory())) && old(renderer.log) <= renderer.log
        invariant Sizes() == DoAll(start, AllActs(inputs[..n]))
        invariant old(renderer.commits) <= renderer.commits
        invariant forall k | |old(renderer.commits)| <= k < |renderer.commits| ::
                    SizedByTurn(start, inputs, renderer.commits[k], n)
      {
        ghost var before := renderer.commits;
        Tick(inputs[n]);
        assert inputs[..n + 1][..n] == inputs[..n];
        DoMore(start, AllActs(inputs[..n]), ActsOf(inputs[n]));
        assert Sizes() == DoAll(start, AllActs(inputs[..n + 1]));
        if InStep(start.win, start.renderer) {
          RendererHasWindowSizeIff(start, inputs[..n + 1]);
        }
        forall k | |old(renderer.commits)| <= k < |renderer.commits| ensures SizedByTurn(start, inputs, renderer.commits[k], n + 1) {
          if k < |before| {
            assert renderer.commits[k] == before[k];
          } else {
            assert SizedInTurn(start, inputs, renderer.commits[k], n + 1);
          }
        }
      }
      assert inputs[..|inputs|] == inputs;
      ReleasedIffIdle(renderer.log, renderer.slots[..], renderer.width, renderer.height, renderer.user, renderer.held, renderer.releases);
      assert Orderly(renderer.log) && LetGoIn(renderer.log) == ToldIn(renderer.log) + renderer.releases by {
        RecordedIsOrderly(renderer.log, renderer.slots[..], renderer.user, renderer.held, renderer.releases);
      }
    }
  }

  lemma DoNothing(d: Display)
    ensures DoAll(d, AllActs([])) == d
  {
  }

  /** No configure in the first roundtrip, one with another size in the first turn, and a
      frame of the initial size: it is committed at the initial size, which the window no
      longer has. */
  method LateConfigureCommitsOldSize(initial: (nat, nat), c: Configure, frame: Decoded) returns (d: DisplayState)
    requires (Asked(c.w, initial.0), Asked(c.h, initial.1)) != initial
    requires (frame.w, frame.h) == initial && |frame.pixels| == Bytes(frame.w, frame.h)
    ensures fresh(d) && (d.width, d.height) == (Asked(c.w, initial.0), Asked(c.h, initial.1))
    ensures |d.renderer.commits| == 2 && (d.renderer.commits[1].w, d.renderer.commits[1].h) == initial
  {
    d := new DisplayState(initial, []);
    var input := Input([Configured(c)], None, [frame], false);
    ghost var start := d.Sizes();
    TurnIsActs(start, input);
    assert input.events[..0] == [];
    d.Tick(input);
  }

  /** There is no end to the commits: with the last buffer released and the client told in
      every turn, each of any number of turns shows its frame. */
  method ShowMany(initial: (nat, nat), frame: Decoded, turns: nat) returns (d: DisplayState)
    requires NearTo(frame, initial) && |frame.pixels| == Bytes(frame.w, frame.h)
    ensures fresh(d) && d.renderer.Valid() && |d.renderer.commits| == turns + 1
  {
    hide Disciplined, Recorded, CommitsIn, Shown;
    d := new DisplayState(initial, []);
    NewBuffers([], d.renderer.commits);
    assert d.renderer.commits[0..] == d.renderer.commits;
    for n := 0 to turns
      invariant d.renderer.Valid() && fresh(d) && fresh(d.renderer) && fresh(d.renderer.slots) && fresh(d.renderer.Memory())
      invariant d.Sizes() == Display(Window(initial.0, initial.1, false, None), initial)
      invariant |d.renderer.commits| == n + 1
      invariant d.renderer.held == {d.renderer.commits[n].buf} && d.renderer.releases == []
    {
      ghost var start, r, commits := d.Sizes(), d.renderer, d.renderer.commits;
      var b := r.commits[n].buf;
      RoomLeft(r.slots[..], r.width, r.height, r.user, r.held, r.releases);
      var input := Input([Freed(d.renderer.commits[n].buf), Released], None, [frame], false);
      TurnIsActs(start, input);
      TwoEvents(({b}, []), Freed(b), Released);
      d.Tick(input);
      NewBuffers(commits, d.renderer.commits);
    }
  }
}
