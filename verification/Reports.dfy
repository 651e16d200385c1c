/** What a window's commit reports as damage, and when that covers what it changes on the
    output. */
module Reports {
  import opened Image
  import opened Options
  import opened Compose
  import opened Damage
  import opened Compositor

  /** The bounding box of the buffer's damage, moved to the window's position. */
  function SurfaceDamage(rects: seq<Rect>, x: int, y: int): Option<Rect> {
    if rects == [] then None
    else
      var union := MergeAll(rects[1..], rects[0]);
      Some(Rect(union.x + x, union.y + y, union.w, union.h))
  }

  /** A shared-memory buffer inside its pool, with rows that do not overlap. */
  predicate Readable(s: Surface) {
    s.Shm? && 4 * s.w <= s.stride && s.offset + s.stride * s.h <= |s.pool|
  }

  function BufferPixel(s: Surface, i: nat, j: nat): Pixel
    requires Readable(s) && i < s.w && j < s.h
  {
    PixelInBuffer(s.w, s.h, s.stride, i, j);
    var at := s.offset + j * s.stride + 4 * i;
    s.pool[at..at + 4]
  }

  /** Outside the damage the new buffer has the pixels of the old one, which it covers. */
  ghost predicate DamageTells(before: Surface, after: Surface, rects: seq<Rect>)
    requires Readable(before) && Readable(after)
  {
    && before.w <= after.w && before.h <= after.h
    && forall i: nat, j: nat | i < after.w && j < after.h && !Covers(rects, i, j) ::
         i < before.w && j < before.h && BufferPixel(before, i, j) == BufferPixel(after, i, j)
  }

  lemma ReportHolds(rects: seq<Rect>, x: int, y: int, i: int, j: int)
    requires Covers(rects, i, j)
    ensures SurfaceDamage(rects, x, y).Some? && SurfaceDamage(rects, x, y).value.Contains(x + i, y + j)
  {
    var k :| 0 <= k < |rects| && rects[k].Contains(i, j);
    assert k > 0 ==> rects[1..][k - 1].Contains(i, j);
    MergeAllCovers(rects[1..], rects[0], i, j);
  }

  lemma {:induction false} SameUnder(a: Scene, b: Scene, above: Scene, right: nat, x: nat, y: nat)
    requires TopPixelIn(a, right, x, y) == TopPixelIn(b, right, x, y)
    ensures TopPixelIn(a + above, right, x, y) == TopPixelIn(b + above, right, x, y)
  {
    if above == [] {
      assert a + above == a && b + above == b;
    } else {
      var n := |above| - 1;
      assert (a + above)[..|a + above| - 1] == a + above[..n] && (b + above)[..|b + above| - 1] == b + above[..n];
      hide LayerIn, Over;
      SameUnder(a, b, above[..n], right, x, y);
    }
  }

  /** A window's pixel: that of its buffer, or of what is below. */
  lemma WindowPixel(below: Scene, x: int, y: int, s: Surface, px: nat, py: nat)
    requires Readable(s)
    ensures var left, top := if x < 0 then 0 else x, if y < 0 then 0 else y;
            ScenePixel(below + [Window(x, y, s)], px, py)
            == if left <= px < left + s.w && top <= py < top + s.h then BufferPixel(s, px - left, py - top) else Below(below, px, py)
  {
    hide ScenePixel, Below;
    var left, top := if x < 0 then 0 else x, if y < 0 then 0 else y;
    if left <= px < left + s.w && top <= py < top + s.h {
      ShmWindowShows(below, x, y, s.pool, s.offset, s.w, s.h, s.stride, px - left, py - top);
    } else {
      ShmWindowEnds(below, x, y, s.pool, s.offset, s.w, s.h, s.stride, px, py);
    }
  }

  /** Where a window is drawn it also is, or it is off the output. */
  predicate Placeable(x: int, y: int, w: nat, h: nat) { x >= w || y >= h || (x >= 0 && y >= 0) }

  /** The report of an ordinary commit is enough: a window anywhere in the stack, not left
      of or above the output, whose new buffer covers the old one and differs from it only
      where the client says. */
  lemma ReportIsEnough(below: Scene, above: Scene, x: int, y: int, before: Surface, after: Surface, rects: seq<Rect>,
                       damage: seq<Rect>, w: nat, h: nat)
    requires Readable(before) && Readable(after) && DamageTells(before, after, rects) && Placeable(x, y, w, h)
    ensures ChangesWithin(below + [Window(x, y, before)] + above, below + [Window(x, y, after)] + above, w, h,
                          Grown(damage, SurfaceDamage(rects, x, y), Full(w, h)))
  {
    var a, b, report := below + [Window(x, y, before)], below + [Window(x, y, after)], SurfaceDamage(rects, x, y);
    CommitLeavesReport(damage, report, w, h);
    forall px: nat, py: nat | px < w && py < h && !Covers(Grown(damage, report, Full(w, h)), px, py)
      ensures ScenePixel(a + above, px, py) == ScenePixel(b + above, px, py)
    {
      assert !Reported(damage, report, px, py);
      SamePixel(below, x, y, before, after, rects, px, py);
      SameUnder(a, b, above, px + 1, px, py);
    }
  }

  lemma SamePixel(below: Scene, x: int, y: int, before: Surface, after: Surface, rects: seq<Rect>, px: nat, py: nat)
    requires Readable(before) && Readable(after) && DamageTells(before, after, rects)
    requires var report := SurfaceDamage(rects, x, y); report.None? || !report.value.Contains(px, py)
    requires px < x || py < y || (x >= 0 && y >= 0)
    ensures ScenePixel(below + [Window(x, y, before)], px, py) == ScenePixel(below + [Window(x, y, after)], px, py)
    ensures TopPixelIn(below + [Window(x, y, before)], px + 1, px, py) == TopPixelIn(below + [Window(x, y, after)], px + 1, px, py)
  {
    assert !Covers(rects, px - x, py - y) by {
      if Covers(rects, px - x, py - y) {
        ReportHolds(rects, x, y, px - x, py - y);
      }
    }
    WindowPixel(below, x, y, before, px, py);
    WindowPixel(below, x, y, after, px, py);
  }

  /** What a single commit on an empty screen changes lies within its report. */
  ghost predicate Told(x: int, y: int, before: Surface, after: Surface, rects: seq<Rect>, w: nat, h: nat) {
    ChangesWithin([Window(x, y, before)], [Window(x, y, after)], w, h, Grown([], SurfaceDamage(rects, x, y), Full(w, h)))
  }

  lemma Untold(x: int, y: int, before: Surface, after: Surface, rects: seq<Rect>, w: nat, h: nat, px: nat, py: nat)
    requires px < w && py < h && !Covers(Grown([], SurfaceDamage(rects, x, y), Full(w, h)), px, py)
    requires ScenePixel([] + [Window(x, y, before)], px, py) != ScenePixel([] + [Window(x, y, after)], px, py)
    ensures !Told(x, y, before, after, rects, w, h)
  {
    hide ScenePixel, Covers, Grown;
    assert [] + [Window(x, y, before)] == [Window(x, y, before)] && [] + [Window(x, y, after)] == [Window(x, y, after)];
  }

  /** A window left of or above the output is drawn at its edge, but reports where it
      would be. The positions at which every such commit is reported are exactly the
      others. */
  lemma EveryCommitIsToldIff(x: int, y: int, w: nat, h: nat)
    requires w > 0 && h > 0
    ensures (forall before, after, rects | Readable(before) && Readable(after) && DamageTells(before, after, rects) ::
               Told(x, y, before, after, rects, w, h))
       <==> Placeable(x, y, w, h)
  {
    if Placeable(x, y, w, h) {
      forall before, after, rects | Readable(before) && Readable(after) && DamageTells(before, after, rects)
        ensures Told(x, y, before, after, rects, w, h)
      {
        ReportIsEnough([], [], x, y, before, after, rects, [], w, h);
        assert [] + [Window(x, y, before)] + [] == [Window(x, y, before)] && [] + [Window(x, y, after)] + [] == [Window(x, y, after)];
      }
    } else {
      EdgeIsMisreported(x, y, w, h);
    }
  }

  /** A buffer of one grey pixel. */
  function Dot(c: Byte): (s: Surface)
    ensures Readable(s) && s.w == 1 && s.h == 1 && BufferPixel(s, 0, 0) == [c, c, c, c]
  {
    Shm([c, c, c, c], 0, 1, 1, 4)
  }

  lemma EdgeIsMisreported(x: int, y: int, w: nat, h: nat)
    requires w > 0 && h > 0 && !Placeable(x, y, w, h)
    ensures DamageTells(Dot(0), Dot(1), [Rect(0, 0, 1, 1)]) && !Told(x, y, Dot(0), Dot(1), [Rect(0, 0, 1, 1)], w, h)
  {
    hide Dot, BufferPixel, ScenePixel, Told, Grown;
    var rects := [Rect(0, 0, 1, 1)];
    assert rects[0].Contains(0, 0);
    var px: nat, py: nat := if x < 0 then 0 else x, if y < 0 then 0 else y;
    WindowPixel([], x, y, Dot(0), px, py);
    WindowPixel([], x, y, Dot(1), px, py);
    assert BufferPixel(Dot(0), 0, 0)[0] != BufferPixel(Dot(1), 0, 0)[0];
    NothingReported(rects, x, y, px, py, w, h);
    Untold(x, y, Dot(0), Dot(1), rects, w, h, px, py);
  }

  lemma NothingReported(rects: seq<Rect>, x: int, y: int, px: nat, py: nat, w: nat, h: nat)
    requires rects == [Rect(0, 0, 1, 1)] && (x < 0 || y < 0) && px < w && py < h
    ensures !Covers(Grown([], SurfaceDamage(rects, x, y), Full(w, h)), px, py)
  {
    CommitLeavesReport([], SurfaceDamage(rects, x, y), w, h);
  }

  /** Two such pixels side by side. */
  function Pair(c: Byte): (s: Surface)
    ensures Readable(s) && s.w == 2 && s.h == 1 && BufferPixel(s, 1, 0) == [c, c, c, c]
  {
    Shm([c, c, c, c, c, c, c, c], 0, 2, 1, 8)
  }

  /** A smaller buffer uncovers what nobody reports, even if it reports all of itself. */
  lemma ShrinkingIsMisreported(w: nat, h: nat)
    requires w > 1 && h > 0
    ensures !Told(0, 0, Pair(1), Dot(1), [Rect(0, 0, 1, 1)], w, h)
  {
    hide Dot, Pair, BufferPixel, ScenePixel, Told, Grown;
    WindowPixel([], 0, 0, Pair(1), 1, 0);
    WindowPixel([], 0, 0, Dot(1), 1, 0);
    assert BufferPixel(Pair(1), 1, 0)[0] == 1 && Below([], 1, 0)[0] == 0;
    OnePixelReported(w, h);
    Untold(0, 0, Pair(1), Dot(1), [Rect(0, 0, 1, 1)], w, h, 1, 0);
  }

  lemma OnePixelReported(w: nat, h: nat)
    requires w > 1 && h > 0
    ensures !Covers(Grown([], SurfaceDamage([Rect(0, 0, 1, 1)], 0, 0), Full(w, h)), 1, 0)
  {
    CommitLeavesReport([], SurfaceDamage([Rect(0, 0, 1, 1)], 0, 0), w, h);
  }
}
