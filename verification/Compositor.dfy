/** The software compositor's state: the mapped windows, the damage since the last
    frame and the persistent canvas that is repainted only where damaged. */
module Compositor {
  import opened Image
  import opened Options
  import opened Compose
  import opened Damage

  /** The damage after a commit that reports `report`, or nothing. */
  function Grown(damage: seq<Rect>, report: Option<Rect>, full: Rect): seq<Rect> {
    if report.Some? then Accumulate(damage, report.value, full) else damage
  }

  /** A pixel of the output that was damaged, or that the commit reports. */
  ghost predicate Reported(damage: seq<Rect>, report: Option<Rect>, x: nat, y: nat) {
    Covers(damage, x, y) || (report.Some? && report.value.Contains(x, y))
  }

  /** A commit loses neither the damage there was nor its own report; and short of a
      collapse it adds nothing else. */
  lemma CommitLeavesReport(damage: seq<Rect>, report: Option<Rect>, w: nat, h: nat)
    ensures var grown := Grown(damage, report, Full(w, h));
            && (forall x: nat, y: nat | x < w && y < h && Reported(damage, report, x, y) :: Covers(grown, x, y))
            && (|damage| < MAX_DAMAGE_RECTS ==>
                  forall x: nat, y: nat | x < w && y < h && Covers(grown, x, y) :: Reported(damage, report, x, y))
            && (report.Some? ==> grown != [])
            && (report.None? ==> grown == damage)
  {
    var full := Full(w, h);
    if report.Some? {
      forall x: nat, y: nat | x < w && y < h
        ensures Reported(damage, report, x, y) ==> Covers(Accumulate(damage, report.value, full), x, y)
        ensures |damage| < MAX_DAMAGE_RECTS && Covers(Accumulate(damage, report.value, full), x, y) ==> Reported(damage, report, x, y)
      {
        if Reported(damage, report, x, y) {
          AccumulateCovers(damage, report.value, full, x, y);
        } else if |damage| < MAX_DAMAGE_RECTS {
          AccumulateExact(damage, report.value, full, x, y);
        }
      }
    }
  }

  /** The picture changes only where there is damage. */
  ghost predicate ChangesWithin(before: Scene, after: Scene, w: nat, h: nat, damage: seq<Rect>) {
    forall x: nat, y: nat | x < w && y < h && !Covers(damage, x, y) ::
      ScenePixel(after, x, y) == ScenePixel(before, x, y)
  }

  /** A commit keeps the canvas right outside the damage exactly when the picture
      changes only inside the damage it leaves. */
  lemma CommitIsSoundIff(before: Scene, after: Scene, canvas: seq<Byte>, w: nat, h: nat, pending: seq<Rect>, stash: seq<Rect>, report: Option<Rect>)
    requires Shows(before, canvas, w, h, pending + stash)
    ensures var grown := Grown(pending, report, Full(w, h)) + stash;
            Shows(after, canvas, w, h, grown) <==> |canvas| != Bytes(w, h) || ChangesWithin(before, after, w, h, grown)
  {
    if |canvas| == Bytes(w, h) {
      var grown := Grown(pending, report, Full(w, h));
      forall x: nat, y: nat | x < w && y < h && !Covers(grown + stash, x, y)
        ensures PixelAt(canvas, w, h, x, y) == ScenePixel(before, x, y)
      {
        CoversEither(grown, stash, x, y);
        CoversEither(pending, stash, x, y);
        if report.Some? && Covers(pending, x, y) {
          AccumulateCovers(pending, report.value, Full(w, h), x, y);
        }
      }
    }
  }

  /** The code falls short of it for single-pixel buffers: they are painted to the edge
      of the output and reported as one pixel. Recolouring a top window of that kind
      changes nothing unreported exactly when that pixel is the output's last, or none
      of it. */
  lemma RecolouringIsReportedIff(below: Scene, px: nat, py: nat, old_: Surface, new_: Surface, w: nat, h: nat)
    requires old_.SinglePixel? && new_.SinglePixel? && old_ != new_
    ensures ChangesWithin(below + [Window(px, py, old_)], below + [Window(px, py, new_)], w, h, [Rect(px, py, 1, 1)])
       <==> px >= w || py >= h || (px + 1 == w && py + 1 == h)
  {
    var before, after, report := below + [Window(px, py, old_)], below + [Window(px, py, new_)], [Rect(px, py, 1, 1)];
    assert before[..|below|] == below && after[..|below|] == below;
    forall x: nat, y: nat
      ensures Covers(report, x, y) <==> (x == px && y == py)
      ensures ScenePixel(after, x, y) == ScenePixel(before, x, y) <==> x < px || y < py
    {
      assert Covers(report, x, y) <==> report[0].Contains(x, y);
      ColoursDiffer(old_, new_);
    }
    if px < w && py < h && !(px + 1 == w && py + 1 == h) {
      var x, y := if px + 1 < w then px + 1 else px, if px + 1 < w then py else py + 1;
      assert !Covers(report, x, y) && ScenePixel(after, x, y) != ScenePixel(before, x, y);
    }
  }

  lemma ColoursDiffer(a: Surface, b: Surface)
    requires a.SinglePixel? && b.SinglePixel? && a != b
    ensures [a.b, a.g, a.r, a.a] != [b.b, b.g, b.r, b.a]
  {
    var p, q := [a.b, a.g, a.r, a.a], [b.b, b.g, b.r, b.a];
    assert p[0] != q[0] || p[1] != q[1] || p[2] != q[2] || p[3] != q[3];
  }

  lemma CoversEither(a: seq<Rect>, b: seq<Rect>, x: int, y: int)
    ensures Covers(a + b, x, y) <==> Covers(a, x, y) || Covers(b, x, y)
  {
    if Covers(a + b, x, y) {
      var i :| 0 <= i < |a + b| && (a + b)[i].Contains(x, y);
      if i < |a| { assert a[i].Contains(x, y); } else { assert b[i - |a|].Contains(x, y); }
    }
    if Covers(a, x, y) {
      var i :| 0 <= i < |a| && a[i].Contains(x, y);
      assert (a + b)[i].Contains(x, y);
    }
    if Covers(b, x, y) {
      var i :| 0 <= i < |b| && b[i].Contains(x, y);
      assert (a + b)[|a| + i].Contains(x, y);
    }
  }

  /** A set whose every output pixel is damaged promises nothing about the canvas. */
  lemma FullShows(scene: Scene, canvas: seq<Byte>, w: nat, h: nat, pending: seq<Rect>, stash: seq<Rect>)
    requires Full(w, h) in pending
    ensures Shows(scene, canvas, w, h, pending + stash)
  {
    forall x: nat, y: nat | x < w && y < h ensures Covers(pending + stash, x, y) {
      var i :| 0 <= i < |pending| && pending[i] == Full(w, h);
      assert (pending + stash)[i].Contains(x, y);
    }
  }

  class CompositorState {
    var width: nat
    var height: nat
    var space: Scene
    var damage: seq<Rect>
    var repaintRegion: seq<Rect>
    var lastRepaintRects: seq<Band>
    var canvas: array<Byte>

    ghost predicate Valid()
      reads this
    {
      Bounded(damage, Full(width, height))
    }

    /** Outside the damage, tracked or stashed for the coming render, the canvas is
        the full composite of the current scene. */
    ghost predicate Truthful()
      reads this, canvas
    {
      Shows(space, canvas[..], width, height, damage + repaintRegion)
    }

    constructor (width: nat, height: nat)
      ensures Valid() && Truthful() && fresh(canvas)
      ensures this.width == width && this.height == height && space == []
      ensures damage == [Full(width, height)] && repaintRegion == [] && canvas.Length == 0
    {
      this.width, this.height := width, height;
      space, damage, repaintRegion, lastRepaintRects := [], [Full(width, height)], [], [];
      canvas := new Byte[0];
      new;
      FullShows(space, canvas[..], width, height, damage, repaintRegion);
    }

    method AddDamage(rect: Rect)
      modifies this`damage
      ensures damage == Accumulate(old(damage), rect, Full(width, height))
    {
      var full := Full(width, height);
      if damage != [] && damage[0] == full {
        return;
      }
      if rect == full {
        damage := [full];
        return;
      }
      if rect in damage {
        return;
      }
      if |damage| >= MAX_DAMAGE_RECTS {
        var merged := rect;
        ghost var goal := MergeAll(damage, rect);
        var i := 0;
        while i < |damage|
          invariant 0 <= i <= |damage|
          invariant MergeAll(damage[i..], merged) == goal
        {
          assert damage[i..][1..] == damage[i + 1..];
          merged := Merge(merged, damage[i]);
          i := i + 1;
        }
        damage := [merged];
      } else {
        damage := damage + [rect];
      }
    }

    /** A window's commit: its buffer is replaced, and its report added to the damage.
        The canvas stays truthful exactly if the report covers what changed. */
    method Commit(after: Scene, report: Option<Rect>)
      requires Valid()
      modifies this`space, this`damage
      ensures Valid() && space == after && damage == Grown(old(damage), report, Full(width, height))
      ensures forall x: nat, y: nat | x < width && y < height && Reported(old(damage), report, x, y) :: Covers(damage, x, y)
      ensures |old(damage)| < MAX_DAMAGE_RECTS ==>
                forall x: nat, y: nat | x < width && y < height && Covers(damage, x, y) :: Reported(old(damage), report, x, y)
      ensures if report.Some? then damage != [] else damage == old(damage)
      ensures old(Truthful()) ==>
                (Truthful() <==> canvas.Length != Bytes(width, height) || ChangesWithin(old(space), after, width, height, damage + repaintRegion))
    {
      if Truthful() {
        CommitIsSoundIff(space, after, canvas[..], width, height, damage, repaintRegion, report);
      }
      CommitLeavesReport(damage, report, width, height);
      space := after;
      match report {
        case Some(rect) =>
          AccumulateBounded(damage, rect, Full(width, height));
          AddDamage(rect);
        case None =>
      }
    }

    /** Mapping, unmapping or committing a surface without a position: any change,
        the whole output damaged. */
    method ChangeWindows(after: Scene)
      requires Valid()
      modifies this`space, this`damage
      ensures Valid() && Truthful() && space == after
      ensures damage == Accumulate(old(damage), Full(width, height), Full(width, height))
    {
      space := after;
      AccumulateBounded(damage, Full(width, height), Full(width, height));
      AddDamage(Full(width, height));
      FullShows(space, canvas[..], width, height, damage, repaintRegion);
    }

    method ResizeOutput(w: nat, h: nat)
      requires Valid()
      modifies this`width, this`height, this`damage
      ensures Valid() && Truthful() && width == w && height == h
      ensures damage == Accumulate(old(damage), Full(w, h), Full(w, h))
    {
      width, height := w, h;
      ResizeBounded(damage, Full(w, h));
      AddDamage(Full(w, h));
      FullShows(space, canvas[..], w, h, damage, repaintRegion);
    }

    /** Moves the damage into the stash the next render repaints. */
    method TakeDirty() returns (dirty: bool)
      requires Valid() && repaintRegion == []
      modifies this`damage, this`repaintRegion
      ensures Valid() && (old(Truthful()) ==> Truthful()) && damage == [] && repaintRegion == old(damage)
      ensures dirty <==> old(damage) != []
    {
      assert damage + repaintRegion == damage == [] + damage;
      repaintRegion := damage;
      damage := [];
      dirty := repaintRegion != [];
    }

    method IsDirty() returns (dirty: bool)
      ensures dirty <==> damage != []
    {
      dirty := damage != [];
    }

    method TakeRepaintRects() returns (rects: seq<Band>)
      modifies this`lastRepaintRects
      ensures rects == old(lastRepaintRects) && lastRepaintRects == []
    {
      rects := lastRepaintRects;
      lastRepaintRects := [];
    }

    method ReaddDamage(bands: seq<Band>)
      requires Valid()
      modifies this`damage
      ensures Valid() && (old(Truthful()) ==> Truthful()) && damage == Readd(old(damage), bands, width, height)
    {
      for i := 0 to |bands|
        invariant Valid() && (old(Truthful()) ==> Truthful()) && damage == Readd(old(damage), bands[..i], width, height)
      {
        assert bands[..i + 1][..i] == bands[..i];
        var rect := Rect(0, bands[i].y, width, bands[i].height);
        AccumulateBounded(damage, rect, Full(width, height));
        if Truthful() {
          CommitIsSoundIff(space, space, canvas[..], width, height, damage, repaintRegion, Some(rect));
        }
        AddDamage(rect);
      }
      assert bands[..|bands|] == bands;
    }

    /** Repaints the stashed region (or everything) and hands out a full copy. From a
        truthful canvas both are the full redraw, whatever the damage was. */
    method Render() returns (output: seq<Byte>)
      requires Valid() && damage == []
      modifies this`canvas, this`repaintRegion, this`lastRepaintRects, canvas
      ensures Valid() && repaintRegion == [] && output == canvas[..]
      ensures Rendered(space, width, height, old(canvas[..]), old(repaintRegion), canvas[..], lastRepaintRects)
      ensures old(Truthful()) && WellFormed(space) ==> Truthful() && IsRedraw(space, canvas[..], width, height)
    {
      hide Composed, Rendered, Repainted;
      var bufferSize := width * height * 4;
      var sizeChanged := canvas.Length != bufferSize;
      ghost var was, truthful := canvas[..], Truthful();
      if sizeChanged {
        canvas := new Byte[bufferSize](_ => 0);
      }
      assert canvas[..] == Blanked(was, width, height);
      ClipsAreDamage(repaintRegion, width, height);
      var clips := ClipsFor(repaintRegion, width, height, sizeChanged);
      lastRepaintRects := BandsOf(clips);
      ComposeClips(canvas, width, height, space, clips);
      ComposedIsRepainted(space, width, height, was, repaintRegion, canvas[..]);
      assert damage + repaintRegion == repaintRegion;
      if truthful && WellFormed(space) {
        RenderIsRedraw(space, width, height, was, repaintRegion, canvas[..], lastRepaintRects);
      }
      repaintRegion := [];
      output := canvas[..];
    }
  }
}
