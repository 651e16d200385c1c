/** Damage tracking: the bounded rectangle set, the clips a repaint turns it into
    and the row bands the encoder is told about. */
module Damage {
  import opened Image
  import opened Numbers
  import opened Compose

  datatype Rect = Rect(x: int, y: int, w: int, h: int) {
    predicate Contains(px: int, py: int) { x <= px < x + w && y <= py < y + h }
  }

  /** A changed band of whole rows, `[y, y + height)`. */
  datatype Band = Band(y: nat, height: nat) {
    predicate Contains(r: int) { y <= r < y + height }
  }

  const MAX_DAMAGE_RECTS: nat := 8

  function Full(w: nat, h: nat): Rect { Rect(0, 0, w, h) }

  /** Bounding box of two rectangles. */
  function Merge(a: Rect, b: Rect): Rect {
    var x, y := Min(a.x, b.x), Min(a.y, b.y);
    Rect(x, y, Max(a.x + a.w, b.x + b.w) - x, Max(a.y + a.h, b.y + b.h) - y)
  }

  function MergeAll(rects: seq<Rect>, acc: Rect): Rect {
    if rects == [] then acc else MergeAll(rects[1..], Merge(acc, rects[0]))
  }

  /** The set after one more rectangle of damage. */
  function Accumulate(rects: seq<Rect>, rect: Rect, full: Rect): seq<Rect> {
    if rects != [] && rects[0] == full then rects
    else if rect == full then [full]
    else if rect in rects then rects
    else if |rects| >= MAX_DAMAGE_RECTS then [MergeAll(rects, rect)]
    else rects + [rect]
  }

  /** Re-marks whole bands as damage, oldest first. */
  function Readd(rects: seq<Rect>, bands: seq<Band>, w: nat, h: nat): seq<Rect> {
    if bands == [] then rects
    else
      var n := |bands| - 1;
      Accumulate(Readd(rects, bands[..n], w, h), Rect(0, bands[n].y, w, bands[n].height), Full(w, h))
  }

  // ---------------------------------------------------------------- coverage

  ghost predicate Covers(rects: seq<Rect>, x: int, y: int) {
    exists i :: 0 <= i < |rects| && rects[i].Contains(x, y)
  }

  /** Some pixel of row `r` is damaged. */
  ghost predicate RowDirty(rects: seq<Rect>, w: nat, r: int) {
    exists x :: 0 <= x < w && Covers(rects, x, r)
  }

  ghost predicate RowIn(bands: seq<Band>, r: int) {
    exists i :: 0 <= i < |bands| && bands[i].Contains(r)
  }

  lemma CoversLast(rects: seq<Rect>, x: int, y: int)
    requires rects != []
    ensures var n := |rects| - 1; Covers(rects, x, y) <==> Covers(rects[..n], x, y) || rects[n].Contains(x, y)
  {
    var n := |rects| - 1;
    if Covers(rects, x, y) && !rects[n].Contains(x, y) {
      var i :| 0 <= i < |rects| && rects[i].Contains(x, y);
      assert rects[..n][i].Contains(x, y);
    }
    if Covers(rects[..n], x, y) {
      var i :| 0 <= i < n && rects[..n][i].Contains(x, y);
      assert rects[i].Contains(x, y);
    }
  }

  lemma RowInLast(bands: seq<Band>, r: int)
    requires bands != []
    ensures var n := |bands| - 1; RowIn(bands, r) <==> RowIn(bands[..n], r) || bands[n].Contains(r)
  {
    var n := |bands| - 1;
    if RowIn(bands, r) && !bands[n].Contains(r) {
      var i :| 0 <= i < |bands| && bands[i].Contains(r);
      assert bands[..n][i].Contains(r);
    }
    if RowIn(bands[..n], r) {
      var i :| 0 <= i < n && bands[..n][i].Contains(r);
      assert bands[i].Contains(r);
    }
  }

  lemma {:induction false} MergeAllCovers(rects: seq<Rect>, acc: Rect, x: int, y: int)
    requires acc.Contains(x, y) || Covers(rects, x, y)
    ensures MergeAll(rects, acc).Contains(x, y)
  {
    if rects != [] {
      if !Merge(acc, rects[0]).Contains(x, y) {
        var i :| 0 <= i < |rects| && rects[i].Contains(x, y);
        assert rects[1..][i - 1].Contains(x, y);
      }
      MergeAllCovers(rects[1..], Merge(acc, rects[0]), x, y);
    }
  }

  /** Accumulating never loses a damaged output pixel. */
  lemma AccumulateCovers(rects: seq<Rect>, rect: Rect, full: Rect, x: int, y: int)
    requires full.Contains(x, y)
    requires rect.Contains(x, y) || Covers(rects, x, y)
    ensures Covers(Accumulate(rects, rect, full), x, y)
  {
    var out := Accumulate(rects, rect, full);
    if (rects != [] && rects[0] == full) || rect == full {
      assert out[0].Contains(x, y);
    } else if rect in rects {
      var i :| 0 <= i < |rects| && rects[i] == rect;
      assert rect.Contains(x, y) ==> rects[i].Contains(x, y);
    } else if |rects| >= MAX_DAMAGE_RECTS {
      MergeAllCovers(rects, rect, x, y);
      assert out[0].Contains(x, y);
    } else if rect.Contains(x, y) {
      assert out[|rects|].Contains(x, y);
    } else {
      var i :| 0 <= i < |rects| && rects[i].Contains(x, y);
      assert out[i].Contains(x, y);
    }
  }

  /** Short of a collapse, nothing undamaged is added either. */
  lemma AccumulateExact(rects: seq<Rect>, rect: Rect, full: Rect, x: int, y: int)
    requires full.Contains(x, y) && (|rects| < MAX_DAMAGE_RECTS || rect in rects || rects[0] == full || rect == full)
    ensures Covers(Accumulate(rects, rect, full), x, y) <==> Covers(rects, x, y) || rect.Contains(x, y)
  {
    if Covers(rects, x, y) || rect.Contains(x, y) {
      AccumulateCovers(rects, rect, full, x, y);
    } else if Accumulate(rects, rect, full) == rects + [rect] {
      CoversLast(rects + [rect], x, y);
      assert (rects + [rect])[..|rects|] == rects;
    }
  }

  predicate Inside(r: Rect, box: Rect) {
    box.x <= r.x && r.x + r.w <= box.x + box.w && box.y <= r.y && r.y + r.h <= box.y + box.h
  }

  /** A collapse gives the smallest rectangle around everything. */
  lemma {:induction false} CollapseIsSmallest(rects: seq<Rect>, acc: Rect, box: Rect)
    requires Inside(acc, box) && forall i | 0 <= i < |rects| :: Inside(rects[i], box)
    ensures Inside(MergeAll(rects, acc), box)
  {
    if rects != [] {
      CollapseIsSmallest(rects[1..], Merge(acc, rects[0]), box);
    }
  }

  /** Re-marking bands keeps old damage and damages every row of every band. */
  lemma {:induction false} ReaddCovers(rects: seq<Rect>, bands: seq<Band>, w: nat, h: nat, x: nat, y: nat)
    requires x < w && y < h && (Covers(rects, x, y) || RowIn(bands, y))
    ensures Covers(Readd(rects, bands, w, h), x, y)
  {
    if bands != [] {
      var n := |bands| - 1;
      RowInLast(bands, y);
      if Covers(rects, x, y) || RowIn(bands[..n], y) {
        ReaddCovers(rects, bands[..n], w, h, x, y);
      }
      AccumulateCovers(Readd(rects, bands[..n], w, h), Rect(0, bands[n].y, w, bands[n].height), Full(w, h), x, y);
    }
  }

  /** As many bands as fit the set, re-marked on their own, damage exactly their rows. */
  lemma {:induction false} ReaddExact(bands: seq<Band>, w: nat, h: nat, x: nat, y: nat)
    requires x < w && y < h && |bands| <= MAX_DAMAGE_RECTS
    ensures Covers(Readd([], bands, w, h), x, y) <==> RowIn(bands, y)
    ensures |Readd([], bands, w, h)| <= |bands|
  {
    if bands != [] {
      var n := |bands| - 1;
      RowInLast(bands, y);
      ReaddExact(bands[..n], w, h, x, y);
      AccumulateExact(Readd([], bands[..n], w, h), Rect(0, bands[n].y, w, bands[n].height), Full(w, h), x, y);
    }
  }

  lemma ReaddRows(bands: seq<Band>, w: nat, h: nat, r: nat)
    requires 0 < w && r < h && RowIn(bands, r)
    ensures RowDirty(Readd([], bands, w, h), w, r)
  {
    ReaddCovers([], bands, w, h, 0, r);
  }

  // ---------------------------------------------------------------- the set's shape

  /** At most eight rectangles, and the full output only in front. */
  predicate Bounded(rects: seq<Rect>, full: Rect) {
    && |rects| <= MAX_DAMAGE_RECTS
    && (full in rects ==> rects[0] == full)
  }

  /** The full output as sole element. */
  predicate FullAlone(rects: seq<Rect>, full: Rect) {
    full in rects ==> rects == [full]
  }

  lemma AccumulateBounded(rects: seq<Rect>, rect: Rect, full: Rect)
    requires Bounded(rects, full)
    ensures Bounded(Accumulate(rects, rect, full), full)
    ensures FullAlone(rects, full) ==> FullAlone(Accumulate(rects, rect, full), full)
    ensures Accumulate(rects, rect, full) != []
  {
  }

  /** After a resize the first rectangle may happen to be the new full output: the
      set is then kept as it is, stale rectangles and all. */
  lemma ResizeBounded(rects: seq<Rect>, full: Rect)
    requires |rects| <= MAX_DAMAGE_RECTS
    ensures Bounded(Accumulate(rects, full, full), full)
    ensures FullAlone(Accumulate(rects, full, full), full) <==> !(|rects| > 1 && rects[0] == full)
  {
  }

  lemma ResizeCanKeepStaleRects()
    ensures var rects := Accumulate(Accumulate([], Rect(0, 0, 50, 50), Full(100, 100)), Rect(60, 60, 10, 10), Full(100, 100));
            FullAlone(rects, Full(100, 100)) && !FullAlone(Accumulate(rects, Full(50, 50), Full(50, 50)), Full(50, 50))
  {
    assert Full(50, 50) in [Rect(0, 0, 50, 50), Rect(60, 60, 10, 10)] by {
      assert [Rect(0, 0, 50, 50), Rect(60, 60, 10, 10)][0] == Full(50, 50);
    }
  }

  lemma {:induction false} ReaddBounded(rects: seq<Rect>, bands: seq<Band>, w: nat, h: nat)
    requires Bounded(rects, Full(w, h))
    ensures Bounded(Readd(rects, bands, w, h), Full(w, h))
    ensures bands != [] ==> Readd(rects, bands, w, h) != []
  {
    if bands != [] {
      var n := |bands| - 1;
      ReaddBounded(rects, bands[..n], w, h);
      AccumulateBounded(Readd(rects, bands[..n], w, h), Rect(0, bands[n].y, w, bands[n].height), Full(w, h));
    }
  }

  // ---------------------------------------------------------------- clips and bands

  function Clamp(v: int, hi: nat): nat {
    if v < 0 then 0 else if v > hi then hi else v
  }

  function ClipOf(rect: Rect, w: nat, h: nat): Clip {
    Clip(Clamp(rect.x, w), Clamp(rect.y, h), Clamp(rect.x + rect.w, w), Clamp(rect.y + rect.h, h))
  }

  /** One clip per rectangle that touches the output. */
  function ClipsOf(region: seq<Rect>, w: nat, h: nat): seq<Clip> {
    if region == [] then []
    else
      var n := |region| - 1;
      var clip := ClipOf(region[n], w, h);
      ClipsOf(region[..n], w, h) + if clip.IsEmpty() then [] else [clip]
  }

  /** What a render repaints: the stashed damage, or everything when the canvas
      has the wrong size or no damage was recorded. */
  function ClipsFor(region: seq<Rect>, w: nat, h: nat, resized: bool): seq<Clip> {
    if resized || region == [] then [Clip.Full(w, h)] else ClipsOf(region, w, h)
  }

  function BandsOf(clips: seq<Clip>): seq<Band>
    requires forall i | 0 <= i < |clips| :: clips[i].y0 <= clips[i].y1
  {
    seq(|clips|, i requires 0 <= i < |clips| => Band(clips[i].y0, clips[i].y1 - clips[i].y0))
  }

  ghost predicate AllWithin(clips: seq<Clip>, w: nat, h: nat) {
    forall i | 0 <= i < |clips| :: clips[i].Within(w, h)
  }

  /** The clips are the damaged part of the output, no more and no less. */
  lemma {:induction false} ClipsAreDamage(region: seq<Rect>, w: nat, h: nat)
    ensures AllWithin(ClipsOf(region, w, h), w, h)
    ensures forall i | 0 <= i < |ClipsOf(region, w, h)| :: !ClipsOf(region, w, h)[i].IsEmpty()
    ensures forall x: nat, y: nat | x < w && y < h ::
              InSome(ClipsOf(region, w, h), x, y) <==> Covers(region, x, y)
  {
    if region != [] {
      var n := |region| - 1;
      ClipsAreDamage(region[..n], w, h);
      var less, clips, last := ClipsOf(region[..n], w, h), ClipsOf(region, w, h), ClipOf(region[n], w, h);
      forall x: nat, y: nat | x < w && y < h
        ensures InSome(clips, x, y) <==> Covers(region, x, y)
      {
        assert last.Contains(x, y) <==> region[n].Contains(x, y);
        CoversLast(region, x, y);
        if InSome(less, x, y) {
          var i :| 0 <= i < |less| && less[i].Contains(x, y);
          assert clips[i].Contains(x, y);
        } else if last.Contains(x, y) {
          assert clips[|less|].Contains(x, y);
        }
      }
    }
  }

  lemma BandsCover(clips: seq<Clip>, x: nat, r: nat)
    requires forall i | 0 <= i < |clips| :: clips[i].y0 <= clips[i].y1
    ensures InSome(clips, x, r) ==> RowIn(BandsOf(clips), r)
  {
    if InSome(clips, x, r) {
      var i :| 0 <= i < |clips| && clips[i].Contains(x, r);
      assert BandsOf(clips)[i].Contains(r);
    }
  }

  /** The bands are the rows of the clips, no more and no less. */
  lemma BandsAreClipRows(clips: seq<Clip>, r: nat)
    requires forall i | 0 <= i < |clips| :: clips[i].y0 <= clips[i].y1 && !clips[i].IsEmpty()
    ensures RowIn(BandsOf(clips), r) <==> exists x: nat :: InSome(clips, x, r)
  {
    if RowIn(BandsOf(clips), r) {
      var i :| 0 <= i < |BandsOf(clips)| && BandsOf(clips)[i].Contains(r);
      assert clips[i].Contains(clips[i].x0, r);
      assert InSome(clips, clips[i].x0, r);
    } else {
      forall x: nat ensures !InSome(clips, x, r) {
        BandsCover(clips, x, r);
      }
    }
  }

  /** A render of recorded damage on a canvas of the right size reports exactly the rows
      with damage. */
  lemma RenderReportsDamage(w: nat, h: nat, canvas: seq<Byte>, region: seq<Rect>, next: seq<Byte>, bands: seq<Band>, r: nat)
    requires Repainted(w, h, canvas, region, next, bands) && region != [] && |canvas| == Bytes(w, h) && r < h
    ensures RowIn(bands, r) <==> RowDirty(region, w, r)
    ensures |bands| <= |region|
  {
    var clips := ClipsOf(region, w, h);
    ClipsAreDamage(region, w, h);
    BandsAreClipRows(clips, r);
    FewerClips(region, w, h);
    if x: nat :| InSome(clips, x, r) {
      var i :| 0 <= i < |clips| && clips[i].Contains(x, r);
      assert clips[i].Within(w, h) && Covers(region, x, r);
    }
    if RowDirty(region, w, r) {
      var x :| 0 <= x < w && Covers(region, x, r);
      assert InSome(clips, x, r);
    }
  }

  lemma {:induction false} FewerClips(region: seq<Rect>, w: nat, h: nat)
    ensures |ClipsOf(region, w, h)| <= |region|
  {
    if region != [] {
      FewerClips(region[..|region| - 1], w, h);
    }
  }

  // ---------------------------------------------------------------- a render

  ghost predicate IsRedraw(scene: Scene, canvas: seq<Byte>, w: nat, h: nat) {
    && |canvas| == Bytes(w, h)
    && forall x: nat, y: nat | x < w && y < h :: PixelAt(canvas, w, h, x, y) == ScenePixel(scene, x, y)
  }

  /** A canvas of the right size shows the scene outside the damage. */
  ghost predicate Shows(scene: Scene, canvas: seq<Byte>, w: nat, h: nat, damage: seq<Rect>) {
    |canvas| == Bytes(w, h) ==>
      forall x: nat, y: nat | x < w && y < h && !Covers(damage, x, y) ::
        PixelAt(canvas, w, h, x, y) == ScenePixel(scene, x, y)
  }

  /** The picture a render starts from: the canvas, or zeros after a change of size. */
  function Blanked(canvas: seq<Byte>, w: nat, h: nat): (b: seq<Byte>)
    ensures |b| == Bytes(w, h)
  {
    if |canvas| == Bytes(w, h) then canvas else seq(Bytes(w, h), _ => 0)
  }

  /** All that a render does for certain, whatever clients write to their buffers
      meanwhile: it touches nothing outside its clips and reports their rows. */
  ghost predicate Repainted(w: nat, h: nat, canvas: seq<Byte>, region: seq<Rect>, next: seq<Byte>, bands: seq<Band>) {
    var clips := ClipsFor(region, w, h, |canvas| != Bytes(w, h));
    && (forall i | 0 <= i < |clips| :: clips[i].y0 <= clips[i].y1)
    && bands == BandsOf(clips) && |next| == Bytes(w, h)
    && forall x: nat, y: nat | x < w && y < h && !InSome(clips, x, y) ::
         PixelAt(next, w, h, x, y) == PixelAt(Blanked(canvas, w, h), w, h, x, y)
  }

  /** With buffers left alone meanwhile, it also shows the scene in the clips. */
  ghost predicate Rendered(scene: Scene, w: nat, h: nat, canvas: seq<Byte>, region: seq<Rect>, next: seq<Byte>, bands: seq<Band>) {
    && Repainted(w, h, canvas, region, next, bands)
    && Composed(scene, Blanked(canvas, w, h), next, w, h, ClipsFor(region, w, h, |canvas| != Bytes(w, h)))
  }

  lemma ComposedIsRepainted(scene: Scene, w: nat, h: nat, canvas: seq<Byte>, region: seq<Rect>, next: seq<Byte>)
    requires Composed(scene, Blanked(canvas, w, h), next, w, h, ClipsFor(region, w, h, |canvas| != Bytes(w, h)))
    ensures var clips := ClipsFor(region, w, h, |canvas| != Bytes(w, h));
            && (forall i | 0 <= i < |clips| :: clips[i].y0 <= clips[i].y1)
            && Rendered(scene, w, h, canvas, region, next, BandsOf(clips))
  {
    ClipsAreDamage(region, w, h);
    var clips := ClipsFor(region, w, h, |canvas| != Bytes(w, h));
    forall x: nat, y: nat | x < w && y < h && !InSome(clips, x, y)
      ensures PixelAt(next, w, h, x, y) == PixelAt(Blanked(canvas, w, h), w, h, x, y)
    {
      EdgeOfSome(clips, x, y);
    }
  }

  /** Repainting just the damage gives the same canvas as a full redraw. */
  lemma RenderIsRedraw(scene: Scene, w: nat, h: nat, canvas: seq<Byte>, region: seq<Rect>, next: seq<Byte>, bands: seq<Band>)
    requires WellFormed(scene) && Shows(scene, canvas, w, h, region)
    requires Rendered(scene, w, h, canvas, region, next, bands)
    ensures IsRedraw(scene, next, w, h)
  {
    ClipsAreDamage(region, w, h);
    var clips := ClipsFor(region, w, h, |canvas| != Bytes(w, h));
    ComposedIsRedraw(scene, Blanked(canvas, w, h), next, w, h, clips);
    forall x: nat, y: nat | x < w && y < h
      ensures PixelAt(next, w, h, x, y) == ScenePixel(scene, x, y)
    {
      if clips == [Clip.Full(w, h)] {
        assert clips[0].Contains(x, y);
      }
    }
  }

  /** A row outside the reported bands was neither damaged nor repainted, and the
      canvas already had the right size. */
  lemma RenderKeepsOtherRows(w: nat, h: nat, canvas: seq<Byte>, region: seq<Rect>, next: seq<Byte>, bands: seq<Band>, r: nat)
    requires 0 < w && r < h && !RowIn(bands, r)
    requires Repainted(w, h, canvas, region, next, bands)
    ensures region != [] && !RowDirty(region, w, r)
    ensures |canvas| == Bytes(w, h) == |next| && Row(next, w, h, r) == Row(canvas, w, h, r)
  {
    ClipsAreDamage(region, w, h);
    var clips := ClipsFor(region, w, h, |canvas| != Bytes(w, h));
    assert InSome([Clip.Full(w, h)], 0, r) by {
      assert [Clip.Full(w, h)][0].Contains(0, r);
    }
    forall x: nat | x < w ensures InSome(clips, x, r) ==> RowIn(bands, r) {
      BandsCover(clips, x, r);
    }
    RowFromPixels(next, canvas, w, h, r);
  }
}
