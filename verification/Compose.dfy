/** The software compositor's leaf loops, on real byte buffers, and the picture a
    scene stands for. Each loop is proved to paint one layer inside one clip and
    nothing else; composing them over any list of clips is proved to give, inside
    the clips, exactly the pixels of a full redraw. */
module Compose {
  import opened Image
  import opened Options

  /** Half-open pixel rectangle `[x0, x1) x [y0, y1)`. */
  datatype Clip = Clip(x0: nat, y0: nat, x1: nat, y1: nat) {
    static function Full(w: nat, h: nat): Clip { Clip(0, 0, w, h) }

    predicate IsEmpty() { x0 >= x1 || y0 >= y1 }

    predicate Contains(x: nat, y: nat) { x0 <= x < x1 && y0 <= y < y1 }

    /** What every clip handed to the loops satisfies: ordered, inside the output. */
    predicate Within(w: nat, h: nat) { x0 <= x1 <= w && y0 <= y1 <= h }
  }

  /** The buffer a window last committed: a range of a shared-memory pool, a
      single-pixel buffer, or nothing the software path can read. */
  datatype Surface =
    | Shm(pool: seq<Byte>, offset: nat, w: nat, h: nat, stride: nat)
    | SinglePixel(r: Byte, g: Byte, b: Byte, a: Byte)
    | Unreadable

  datatype Window = Window(x: int, y: int, surface: Surface)

  /** Mapped windows, bottom first. */
  type Scene = seq<Window>

  /** Rows do not overlap. The compositor does not check this of a client's buffer. */
  predicate WellFormedSurface(s: Surface) {
    s.Shm? ==> 4 * s.w <= s.stride
  }

  ghost predicate WellFormed(scene: Scene) {
    forall i | 0 <= i < |scene| :: WellFormedSurface(scene[i].surface)
  }

  // ---------------------------------------------------------------- layers

  /** What one drawing call puts on the picture. */
  datatype Layer =
    | Black
    | Blit(x: nat, y: nat, src: seq<Byte>, w: nat, h: nat, stride: nat, right: nat)
    | Solid(x: nat, y: nat, colour: Pixel)
    | Weave

  const BLACK: Pixel := [0, 0, 0, 0]

  /** The root weave as a picture: white where exactly one of the coordinates is
      in the middle half of its period of four. */
  function WeavePixel(x: nat, y: nat): Pixel {
    if (x % 4 in {1, 2}) != (y % 4 in {1, 2}) then [255, 255, 255, 255] else [0, 0, 0, 255]
  }

  /** Byte offset of pixel (x, y) in a window buffer. */
  function SourceOffset(stride: nat, x: nat, y: nat): nat {
    y * stride + x * 4
  }

  /** A row of a blit is copied in one piece, up to the buffer's width or the right edge
      of the clip, and only if that piece lies within the buffer. */
  predicate RowFits(layer: Layer, row: nat)
    requires layer.Blit?
  {
    var end := if layer.x + layer.w < layer.right then layer.x + layer.w else layer.right;
    layer.x <= end && SourceOffset(layer.stride, end - layer.x, row) <= |layer.src|
  }

  /** The colour a layer gives to output pixel (x, y), if it covers it. */
  function Paint(layer: Layer, x: nat, y: nat): Option<Pixel> {
    match layer
    case Black => Some(BLACK)
    case Weave => Some(WeavePixel(x, y))
    case Solid(lx, ly, colour) => if lx <= x && ly <= y then Some(colour) else None
    case Blit(lx, ly, src, w, h, stride, right) =>
      if lx <= x < lx + w && x < right && ly <= y < ly + h && RowFits(layer, y - ly) then
        RowHasPixel(layer, x, y - ly);
        var at := SourceOffset(stride, x - lx, y - ly);
        Some(src[at..at + 4])
      else None
  }

  lemma RowHasPixel(layer: Layer, x: nat, row: nat)
    requires layer.Blit? && RowFits(layer, row) && layer.x <= x < layer.x + layer.w && x < layer.right
    ensures SourceOffset(layer.stride, x - layer.x, row) + 4 <= |layer.src|
  {
  }

  function Over(layer: Layer, x: nat, y: nat, under: Pixel): Pixel {
    match Paint(layer, x, y)
    case Some(p) => p
    case None => under
  }

  /** The layer a window contributes to a clip with right edge `right`. Windows left of
      or above the output are drawn at its edge; a pool range reaching past the pool is
      not drawn. */
  function LayerIn(win: Window, right: nat): Option<Layer> {
    var px: nat, py: nat := if win.x < 0 then 0 else win.x, if win.y < 0 then 0 else win.y;
    match win.surface
    case Shm(pool, offset, w, h, stride) =>
      if offset + stride * h <= |pool| then
        Some(Blit(px, py, pool[offset..offset + stride * h], w, h, stride, right))
      else None
    case SinglePixel(r, g, b, a) => Some(Solid(px, py, [b, g, r, a]))
    case Unreadable => None
  }

  /** Topmost window first, down to the black background. */
  function TopPixelIn(scene: Scene, right: nat, x: nat, y: nat): Pixel {
    if scene == [] then BLACK
    else
      var n := |scene| - 1;
      match LayerIn(scene[n], right)
      case Some(layer) => Over(layer, x, y, TopPixelIn(scene[..n], right, x, y))
      case None => TopPixelIn(scene[..n], right, x, y)
  }

  /** What pixel (x, y) shows once a clip with that right edge is repainted. */
  function ScenePixelIn(scene: Scene, right: nat, x: nat, y: nat): Pixel {
    if scene == [] then WeavePixel(x, y) else TopPixelIn(scene, right, x, y)
  }

  /** The picture of a scene: what a repaint just wide enough shows at (x, y). */
  function ScenePixel(scene: Scene, x: nat, y: nat): Pixel {
    ScenePixelIn(scene, x + 1, x, y)
  }

  // ---------------------------------------------------------------- what windows show

  /** What shows where a window covers nothing: the windows below it, over black. */
  function Below(below: Scene, x: nat, y: nat): Pixel {
    if below == [] then [0, 0, 0, 0] else ScenePixel(below, x, y)
  }

  /** The topmost window's paint counts, else what is below. */
  lemma OverBelow(below: Scene, win: Window, x: nat, y: nat)
    ensures ScenePixel(below + [win], x, y)
            == match PaintIn(win, x + 1, x, y) case Some(p) => p case None => Below(below, x, y)
  {
    hide LayerIn, Paint;
    assert (below + [win])[..|below|] == below;
    EdgeBelow(below, x, y);
  }

  lemma PixelInBuffer(w: nat, h: nat, stride: nat, i: nat, j: nat)
    requires i < w && j < h && 4 * w <= stride
    ensures 0 <= j * stride && j * stride + 4 * i + 4 <= stride * h
  {
    assert (j + 1) * stride <= stride * h;
  }

  lemma FourBytes(pool: seq<Byte>, offset: nat, n: nat, at: nat)
    requires offset + n <= |pool| && at + 4 <= n
    ensures pool[offset..offset + n][at..at + 4] == pool[offset + at..offset + at + 4]
  {
    SubSlice(pool, offset, offset + n, at, at + 4);
  }

  /** A shared-memory window shows its buffer unscaled: with rows that do not overlap,
      inside the pool, column i and row j of it are the four bytes at
      `offset + j * stride + 4 * i`, shown i to the right of and j below the window's
      position, or the output's edge if that lies beyond. */
  lemma ShmWindowShows(below: Scene, x: int, y: int, pool: seq<Byte>, offset: nat, w: nat, h: nat, stride: nat, i: nat, j: nat)
    requires 4 * w <= stride && offset + stride * h <= |pool| && i < w && j < h
    ensures ScenePixel(below + [Window(x, y, Shm(pool, offset, w, h, stride))],
                       (if x < 0 then 0 else x) + i, (if y < 0 then 0 else y) + j)
            == (PixelInBuffer(w, h, stride, i, j); var at := offset + j * stride + 4 * i; pool[at..at + 4])
  {
    hide PaintIn, LayerIn, Paint, ScenePixel, Below;
    var win := Window(x, y, Shm(pool, offset, w, h, stride));
    var px: nat, py: nat := (if x < 0 then 0 else x) + i, (if y < 0 then 0 else y) + j;
    PixelInBuffer(w, h, stride, i, j);
    FourBytes(pool, offset, stride * h, j * stride + i * 4);
    ShmPaints(win, px, py, i, j);
    OverBelow(below, win, px, py);
  }

  lemma ShmPaints(win: Window, px: nat, py: nat, i: nat, j: nat)
    requires win.surface.Shm? && WellFormedSurface(win.surface) && i < win.surface.w && j < win.surface.h
    requires win.surface.offset + win.surface.stride * win.surface.h <= |win.surface.pool|
    requires px == (if win.x < 0 then 0 else win.x) + i && py == (if win.y < 0 then 0 else win.y) + j
    ensures var s, at := win.surface, SourceOffset(win.surface.stride, i, j);
            && at + 4 <= s.stride * s.h
            && PaintIn(win, px + 1, px, py) == Some(s.pool[s.offset..s.offset + s.stride * s.h][at..at + 4])
  {
    var s := win.surface;
    PixelInBuffer(s.w, s.h, s.stride, i, j);
    var layer := LayerIn(win, px + 1).value;
    assert layer == Blit(px - i, py - j, s.pool[s.offset..s.offset + s.stride * s.h], s.w, s.h, s.stride, px + 1);
    FullRowFits(layer, j);
    BlitPaints(layer, px, py);
  }

  lemma BlitPaints(layer: Layer, x: nat, y: nat)
    requires layer.Blit? && layer.x <= x < layer.x + layer.w && x < layer.right && layer.y <= y < layer.y + layer.h
    requires RowFits(layer, y - layer.y)
    ensures var at := SourceOffset(layer.stride, x - layer.x, y - layer.y);
            at + 4 <= |layer.src| && Paint(layer, x, y) == Some(layer.src[at..at + 4])
  {
    RowHasPixel(layer, x, y - layer.y);
  }

  /** Everywhere else it shows what is below. */
  lemma ShmWindowEnds(below: Scene, x: int, y: int, pool: seq<Byte>, offset: nat, w: nat, h: nat, stride: nat, px: nat, py: nat)
    requires px < x || px >= w + (if x < 0 then 0 else x) || py < y || py >= h + if y < 0 then 0 else y
    ensures ScenePixel(below + [Window(x, y, Shm(pool, offset, w, h, stride))], px, py) == Below(below, px, py)
  {
    OverBelow(below, Window(x, y, Shm(pool, offset, w, h, stride)), px, py);
  }

  lemma EdgeBelow(below: Scene, x: nat, y: nat)
    ensures TopPixelIn(below, x + 1, x, y) == Below(below, x, y)
  {
  }

  /** A single-pixel window shows its colour, in the order blue, green, red, alpha, from
      its position to the end of the output. */
  lemma SinglePixelShows(below: Scene, x: int, y: int, r: Byte, g: Byte, b: Byte, a: Byte, px: nat, py: nat)
    ensures ScenePixel(below + [Window(x, y, SinglePixel(r, g, b, a))], px, py)
            == if x <= px && y <= py then [b, g, r, a] else Below(below, px, py)
  {
    OverBelow(below, Window(x, y, SinglePixel(r, g, b, a)), px, py);
  }

  /** A window whose range leaves its pool, or whose buffer cannot be read, shows nothing;
      but it replaces the weave by black. */
  lemma HiddenWindowShows(below: Scene, win: Window, px: nat, py: nat)
    requires win.surface.Unreadable? || (win.surface.Shm? && win.surface.offset + win.surface.stride * win.surface.h > |win.surface.pool|)
    ensures ScenePixel(below + [win], px, py) == Below(below, px, py)
  {
    OverBelow(below, win, px, py);
  }

  /** A window of which the output need not be asked how wide it is repainted. */
  ghost predicate EdgeBlind(win: Window) {
    forall right: nat, x: nat, y: nat | x < right ::
      PaintIn(win, right, x, y) == PaintIn(win, x + 1, x, y)
  }

  function PaintIn(win: Window, right: nat, x: nat, y: nat): Option<Pixel> {
    match LayerIn(win, right)
    case Some(layer) => Paint(layer, x, y)
    case None => None
  }

  /** With a stride of at least one pixel, what a buffer shows is independent of the clip
      exactly when its rows do not overlap, or there is nothing to show. */
  lemma EdgeBlindIff(win: Window)
    requires win.surface.Shm? && win.surface.stride >= 4 && win.surface.w > 0 && win.surface.h > 0
    requires win.surface.offset + win.surface.stride * win.surface.h <= |win.surface.pool|
    ensures EdgeBlind(win) <==> WellFormedSurface(win.surface)
  {
    if WellFormedSurface(win.surface) {
      forall right: nat, x: nat, y: nat | x < right
        ensures PaintIn(win, right, x, y) == PaintIn(win, x + 1, x, y)
      {
        WellFormedIsEdgeBlind(win, right, x, y);
      }
    } else {
      ShortStrideShows(win);
    }
  }

  lemma WellFormedIsEdgeBlind(win: Window, right: nat, x: nat, y: nat)
    requires WellFormedSurface(win.surface) && x < right
    ensures PaintIn(win, right, x, y) == PaintIn(win, x + 1, x, y)
  {
    if LayerIn(win, right).Some? && win.surface.Shm? {
      var a, b := LayerIn(win, right).value, LayerIn(win, x + 1).value;
      if a.x <= x < a.x + a.w && a.y <= y < a.y + a.h {
        FullRowFits(a, y - a.y);
        FullRowFits(b, y - a.y);
      }
    }
  }

  lemma FullRowFits(layer: Layer, row: nat)
    requires layer.Blit? && 4 * layer.w <= layer.stride && |layer.src| == layer.stride * layer.h && row < layer.h
    requires layer.x <= layer.right
    ensures RowFits(layer, row)
  {
    assert (row + 1) * layer.stride <= layer.h * layer.stride;
  }

  /** The first pixel of a last row too short for the whole width is shown by a clip one
      pixel wide, and not by one that takes in the whole row. */
  lemma ShortStrideShows(win: Window)
    requires win.surface.Shm? && 4 <= win.surface.stride < 4 * win.surface.w && win.surface.h > 0
    requires win.surface.offset + win.surface.stride * win.surface.h <= |win.surface.pool|
    ensures !EdgeBlind(win)
  {
    var s := win.surface;
    var px: nat, py: nat := if win.x < 0 then 0 else win.x, if win.y < 0 then 0 else win.y;
    var y := py + s.h - 1;
    var wide, narrow := LayerIn(win, px + s.w).value, LayerIn(win, px + 1).value;
    LastRowFits(wide);
    LastRowFits(narrow);
    hide RowFits, SourceOffset;
    assert PaintIn(win, px + s.w, px, y) != PaintIn(win, px + 1, px, y);
  }

  lemma LastRowFits(layer: Layer)
    requires layer.Blit? && layer.h > 0 && |layer.src| == layer.stride * layer.h
    requires layer.x <= layer.right <= layer.x + layer.w
    ensures RowFits(layer, layer.h - 1) <==> 4 * (layer.right - layer.x) <= layer.stride
  {
    assert (layer.h - 1) * layer.stride + layer.stride == layer.h * layer.stride;
  }

  // ---------------------------------------------------------------- sweeps

  /** A clip is painted row by row, left to right; these are its pixels before
      the pen at column `cx` of row `cy`. */
  ghost predicate Reached(clip: Clip, cx: nat, cy: nat, x: nat, y: nat) {
    clip.Contains(x, y) && (y < cy || (y == cy && x < cx))
  }

  /** `after` is `before` with `layer` painted on the pixels the pen has reached. */
  ghost predicate Swept(before: seq<Byte>, after: seq<Byte>, w: nat, h: nat, clip: Clip, layer: Layer, cx: nat, cy: nat) {
    && |before| == Bytes(w, h) == |after|
    && forall x: nat, y: nat | x < w && y < h ::
         PixelAt(after, w, h, x, y)
         == if Reached(clip, cx, cy, x, y) then Over(layer, x, y, PixelAt(before, w, h, x, y))
            else PixelAt(before, w, h, x, y)
  }

  /** `layer` painted on the whole of `clip`, and on nothing else. */
  ghost predicate Painted(before: seq<Byte>, after: seq<Byte>, w: nat, h: nat, clip: Clip, layer: Layer) {
    Swept(before, after, w, h, clip, layer, clip.x0, clip.y1)
  }

  /** Between columns `xa` and `xb` of row `y`, the layer covers exactly the `n`
      pixels from column `a`, and `span` holds their colours. */
  ghost predicate SpanOf(layer: Layer, y: nat, xa: nat, xb: nat, a: nat, n: nat, span: seq<Byte>) {
    && xa <= a && a + n <= xb && |span| == 4 * n
    && forall x: nat | xa <= x < xb ::
         Paint(layer, x, y) == if a <= x < a + n then Some(span[4 * (x - a)..4 * (x - a) + 4]) else None
  }

  /** Moving the pen from column `xa` to `xb` by writing `n` pixels at column `a`. */
  lemma SweepSpan(start: seq<Byte>, cur: seq<Byte>, next: seq<Byte>, w: nat, h: nat, clip: Clip, layer: Layer,
                  y: nat, xa: nat, xb: nat, a: nat, n: nat, span: seq<Byte>)
    requires clip.Within(w, h) && clip.y0 <= y < clip.y1 && clip.x0 <= xa <= xb <= clip.x1
    requires Swept(start, cur, w, h, clip, layer, xa, y)
    requires Spliced(cur, next, Offset(w, a, y), span)
    requires SpanOf(layer, y, xa, xb, a, n, span)
    ensures Swept(start, next, w, h, clip, layer, xb, y)
  {
    SplicePixels(cur, next, w, h, a, y, n, span);
    hide PixelAt, Bytes, Paint;
  }

  lemma SweepStart(b: seq<Byte>, w: nat, h: nat, clip: Clip, layer: Layer)
    requires |b| == Bytes(w, h)
    ensures Swept(b, b, w, h, clip, layer, clip.x0, clip.y0)
  {
  }

  /** The end of one row is the start of the next. */
  lemma SweepNewline(start: seq<Byte>, cur: seq<Byte>, w: nat, h: nat, clip: Clip, layer: Layer, y: nat)
    requires Swept(start, cur, w, h, clip, layer, clip.x1, y)
    ensures Swept(start, cur, w, h, clip, layer, clip.x0, y + 1)
  {
  }

  // ---------------------------------------------------------------- leaf loops

  lemma BlackSpan(y: nat, a: nat, b: nat, zeros: seq<Byte>)
    requires a <= b && |zeros| == 4 * (b - a) && forall i | 0 <= i < |zeros| :: zeros[i] == 0
    ensures SpanOf(Black, y, a, b, a, b - a, zeros)
  {
    forall x: nat | a <= x < b
      ensures Paint(Black, x, y) == Some(zeros[4 * (x - a)..4 * (x - a) + 4])
    {
      assert zeros[4 * (x - a)..4 * (x - a) + 4] == BLACK;
    }
  }

  lemma PixelSpan(layer: Layer, y: nat, x: nat, colour: Pixel)
    requires Paint(layer, x, y) == Some(colour)
    ensures SpanOf(layer, y, x, x + 1, x, 1, colour)
  {
    assert colour[0..4] == colour;
  }

  /** The bounds check of the copy is whether the row fits. */
  lemma RowFitsIff(layer: Layer, row: nat, a: nat, b: nat)
    requires layer.Blit? && layer.x <= a <= b && b <= layer.x + layer.w && b <= layer.right
    requires b == layer.x + layer.w || b == layer.right
    ensures row * layer.stride + (a - layer.x) * 4 == SourceOffset(layer.stride, a - layer.x, row)
    ensures RowFits(layer, row) <==> SourceOffset(layer.stride, a - layer.x, row) + (b - a) * 4 <= |layer.src|
  {
  }

  lemma PixelIndex(w: nat, x: nat, y: nat)
    ensures (y * w + x) * 4 == Offset(w, x, y)
  {
  }

  /** The stretch of a source row that lands in columns `[a, b)`, if the row fits. */
  lemma BlitSpan(layer: Layer, y: nat, xa: nat, xb: nat, a: nat, b: nat)
    requires layer.Blit? && layer.y <= y < layer.y + layer.h && RowFits(layer, y - layer.y) && xb <= layer.right
    requires layer.x <= a && b <= layer.x + layer.w
    requires xa <= a < b <= xb && (a == layer.x || a == xa) && (b == layer.x + layer.w || b == layer.right)
    ensures var at := SourceOffset(layer.stride, a - layer.x, y - layer.y);
            at + (b - a) * 4 <= |layer.src| && SpanOf(layer, y, xa, xb, a, b - a, layer.src[at..at + (b - a) * 4])
  {
    hide Paint, SourceOffset, RowFits;
    BlitMisses(layer, y, xa, xb, a, b);
    var r, at := y - layer.y, SourceOffset(layer.stride, a - layer.x, y - layer.y);
    RowFitsIff(layer, r, a, b);
    var span := layer.src[at..at + (b - a) * 4];
    forall x: nat | a <= x < b
      ensures Paint(layer, x, y) == Some(span[4 * (x - a)..4 * (x - a) + 4])
    {
      var k := 4 * (x - a);
      BlitPixel(layer, y, a, x);
      SubSlice(layer.src, at, at + (b - a) * 4, k, k + 4);
    }
  }

  lemma BlitPixel(layer: Layer, y: nat, a: nat, x: nat)
    requires layer.Blit? && layer.y <= y < layer.y + layer.h && RowFits(layer, y - layer.y)
    requires layer.x <= a <= x < layer.x + layer.w && x < layer.right
    ensures var at := SourceOffset(layer.stride, a - layer.x, y - layer.y) + 4 * (x - a);
            at + 4 <= |layer.src| && Paint(layer, x, y) == Some(layer.src[at..at + 4])
  {
    RowHasPixel(layer, x, y - layer.y);
  }

  /** The columns a blit leaves alone. */
  lemma BlitMisses(layer: Layer, y: nat, xa: nat, xb: nat, a: nat, b: nat)
    requires layer.Blit? && layer.x <= a && b <= layer.x + layer.w
    requires xa <= a <= b <= xb && (a == layer.x || a == xa) && (b == layer.x + layer.w || b == layer.right)
    ensures forall x: nat | xa <= x < xb && !(a <= x < b) :: Paint(layer, x, y) == None
  {
    hide SourceOffset;
  }

  /** Rows of the clip that a blit does not reach need no writing. */
  lemma BlitSkipsRows(start: seq<Byte>, cur: seq<Byte>, w: nat, h: nat, clip: Clip, layer: Layer, ya: nat, yb: nat)
    requires layer.Blit? && ya <= yb && Swept(start, cur, w, h, clip, layer, clip.x0, ya)
    requires yb <= layer.y || layer.y + layer.h <= ya || ya == yb
          || layer.x + layer.w <= clip.x0 || clip.x1 <= layer.x || layer.w == 0 || layer.h == 0 || clip.x0 >= clip.x1
    ensures Swept(start, cur, w, h, clip, layer, clip.x0, yb)
  {
    hide SourceOffset;
  }

  /** Nor does a row that does not fit. */
  lemma BlitSkipsRow(start: seq<Byte>, cur: seq<Byte>, w: nat, h: nat, clip: Clip, layer: Layer, y: nat)
    requires layer.Blit? && layer.y <= y && !RowFits(layer, y - layer.y) && Swept(start, cur, w, h, clip, layer, clip.x0, y)
    ensures Swept(start, cur, w, h, clip, layer, clip.x0, y + 1)
  {
    hide RowFits, SourceOffset;
  }

  method ClearRegion(dst: array<Byte>, width: nat, ghost height: nat, clip: Clip)
    requires dst.Length == Bytes(width, height) && clip.Within(width, height)
    modifies dst
    ensures Painted(old(dst[..]), dst[..], width, height, clip, Black)
  {
    hide Swept;
    ghost var start := dst[..];
    SweepStart(start, width, height, clip, Black);
    for y := clip.y0 to clip.y1
      invariant Swept(start, dst[..], width, height, clip, Black, clip.x0, y)
    {
      OffsetInside(width, height, clip.x0, y);
      OffsetInside(width, height, clip.x1, y);
      var first := (y * width + clip.x0) * 4;
      var end := (y * width + clip.x1) * 4;
      if end <= dst.Length {
        ghost var cur := dst[..];
        var zeros: seq<Byte> := seq(end - first, _ => 0);
        CopyBytes(dst, first, zeros);
        BlackSpan(y, clip.x0, clip.x1, zeros);
        SweepSpan(start, cur, dst[..], width, height, clip, Black,
                  y, clip.x0, clip.x1, clip.x0, clip.x1 - clip.x0, zeros);
        SweepNewline(start, dst[..], width, height, clip, Black, y);
      }
    }
  }

  method BlitBgra(dst: array<Byte>, dstWidth: nat, dstHeight: nat, posX: nat, posY: nat,
                  src: seq<Byte>, srcW: nat, srcH: nat, srcStride: nat, clip: Clip)
    requires dst.Length == Bytes(dstWidth, dstHeight) && clip.Within(dstWidth, dstHeight)
    modifies dst
    ensures Painted(old(dst[..]), dst[..], dstWidth, dstHeight, clip, Blit(posX, posY, src, srcW, srcH, srcStride, clip.x1))
  {
    ghost var start := dst[..];
    hide Swept, Paint, SpanOf, Spliced, RowFits, SourceOffset, Offset, Bytes;
    ghost var layer := Blit(posX, posY, src, srcW, srcH, srcStride, clip.x1);
    SweepStart(start, dstWidth, dstHeight, clip, layer);
    var targetWidth := if posX < dstWidth then dstWidth - posX else 0;
    var targetHeight := if posY < dstHeight then dstHeight - posY else 0;
    if srcW == 0 || srcH == 0 || targetWidth == 0 || targetHeight == 0 {
      BlitSkipsRows(start, start, dstWidth, dstHeight, clip, layer, clip.y0, clip.y1);
      return;
    }
    var copyW := if srcW < targetWidth then srcW else targetWidth;
    var copyH := if srcH < targetHeight then srcH else targetHeight;
    var dx0 := if posX < clip.x0 then clip.x0 else posX;
    var dx1 := if posX + copyW < clip.x1 then posX + copyW else clip.x1;
    var dy0 := if posY < clip.y0 then clip.y0 else posY;
    var dy1 := if posY + copyH < clip.y1 then posY + copyH else clip.y1;
    if dx0 >= dx1 || dy0 >= dy1 {
      BlitSkipsRows(start, start, dstWidth, dstHeight, clip, layer, clip.y0, clip.y1);
      return;
    }
    var rowBytes := (dx1 - dx0) * 4;
    BlitSkipsRows(start, start, dstWidth, dstHeight, clip, layer, clip.y0, dy0);
    for destY := dy0 to dy1
      invariant Swept(start, dst[..], dstWidth, dstHeight, clip, layer, clip.x0, destY)
    {
      OffsetInside(dstWidth, dstHeight, dx0, destY);
      var srcIdx := (destY - posY) * srcStride + (dx0 - posX) * 4;
      var destIdx := (destY * dstWidth + dx0) * 4;
      RowFitsIff(layer, destY - posY, dx0, dx1);
      PixelIndex(dstWidth, dx0, destY);
      if srcIdx + rowBytes <= |src| && destIdx + rowBytes <= dst.Length {
        ghost var cur := dst[..];
        var span := src[srcIdx..srcIdx + rowBytes];
        CopyBytes(dst, destIdx, span);
        BlitSpan(layer, destY, clip.x0, clip.x1, dx0, dx1);
        SweepSpan(start, cur, dst[..], dstWidth, dstHeight, clip, layer,
                  destY, clip.x0, clip.x1, dx0, dx1 - dx0, span);
        SweepNewline(start, dst[..], dstWidth, dstHeight, clip, layer, destY);
      } else {
        BlitSkipsRow(start, dst[..], dstWidth, dstHeight, clip, layer, destY);
      }
    }
    BlitSkipsRows(start, dst[..], dstWidth, dstHeight, clip, layer, dy1, clip.y1);
  }

  method FillSolid(dst: array<Byte>, dstWidth: nat, dstHeight: nat, posX: nat, posY: nat,
                   r: Byte, g: Byte, b: Byte, a: Byte, clip: Clip)
    requires dst.Length == Bytes(dstWidth, dstHeight) && clip.Within(dstWidth, dstHeight)
    modifies dst
    ensures Painted(old(dst[..]), dst[..], dstWidth, dstHeight, clip, Solid(posX, posY, [b, g, r, a]))
  {
    ghost var start := dst[..];
    ghost var layer := Solid(posX, posY, [b, g, r, a]);
    var x0 := if posX < clip.x0 then clip.x0 else posX;
    var x1 := if dstWidth < clip.x1 then dstWidth else clip.x1;
    var y0 := if posY < clip.y0 then clip.y0 else posY;
    var y1 := if dstHeight < clip.y1 then dstHeight else clip.y1;
    var destY := y0;
    while destY < y1
      invariant y0 <= destY
      invariant Swept(start, dst[..], dstWidth, dstHeight, clip, layer, clip.x0, destY)
    {
      var destX := x0;
      while destX < x1
        invariant x0 <= destX
        invariant Swept(start, dst[..], dstWidth, dstHeight, clip, layer, destX, destY)
      {
        OffsetInside(dstWidth, dstHeight, destX, destY);
        var destIdx := (destY * dstWidth + destX) * 4;
        if destIdx + 4 <= dst.Length {
          ghost var cur := dst[..];
          CopyBytes(dst, destIdx, [b, g, r, a]);
          PixelSpan(layer, destY, destX, [b, g, r, a]);
          SweepSpan(start, cur, dst[..], dstWidth, dstHeight, clip, layer,
                    destY, destX, destX + 1, destX, 1, [b, g, r, a]);
        }
        destX := destX + 1;
      }
      destY := destY + 1;
    }
  }

  const ROOT_WEAVE_BITS: seq<bv8> := [0x6, 0x9, 0x9, 0x6]

  method RenderRootWeave(dst: array<Byte>, width: nat, height: nat, clip: Clip)
    requires dst.Length == Bytes(width, height) && clip.Within(width, height)
    modifies dst
    ensures Painted(old(dst[..]), dst[..], width, height, clip, Weave)
  {
    ghost var start := dst[..];
    var y1 := if height < clip.y1 then height else clip.y1;
    var x1 := if width < clip.x1 then width else clip.x1;
    for y := clip.y0 to y1
      invariant Swept(start, dst[..], width, height, clip, Weave, clip.x0, y)
    {
      var row := ROOT_WEAVE_BITS[y % 4];
      for x := clip.x0 to x1
        invariant Swept(start, dst[..], width, height, clip, Weave, x, y)
      {
        OffsetInside(width, height, x, y);
        var bit := (row >> (x % 4)) & 1;
        var colour: Byte := if bit == 1 then 255 else 0;
        var idx := (y * width + x) * 4;
        if idx + 4 <= dst.Length {
          ghost var cur := dst[..];
          WeaveBit(x % 4, y % 4);
          CopyBytes(dst, idx, [colour, colour, colour, 255]);
          PixelSpan(Weave, y, x, [colour, colour, colour, 255]);
          SweepSpan(start, cur, dst[..], width, height, clip, Weave,
                    y, x, x + 1, x, 1, [colour, colour, colour, 255]);
        }
      }
    }
  }

  /** The 4x4 bitmap is the weave. */
  lemma WeaveBit(x: nat, y: nat)
    requires x < 4 && y < 4
    ensures (ROOT_WEAVE_BITS[y] >> x) & 1 == 1 <==> (x in {1, 2}) != (y in {1, 2})
  {
    if x == 0 {} else if x == 1 {} else if x == 2 {} else {}
  }

  /** Without windows the picture is the bitmap, repeated, in white and black. */
  lemma EmptySceneShows(x: nat, y: nat)
    ensures ScenePixel([], x, y)
            == if (ROOT_WEAVE_BITS[y % 4] >> (x % 4)) & 1 == 1 then [255, 255, 255, 255] else [0, 0, 0, 255]
  {
    WeaveBit(x % 4, y % 4);
  }

  // ---------------------------------------------------------------- composition

  ghost predicate InSome(clips: seq<Clip>, x: nat, y: nat) {
    exists i :: 0 <= i < |clips| && clips[i].Contains(x, y)
  }

  /** `after` shows the full redraw inside the clips and `before` everywhere else. */
  ghost predicate Recomposed(scene: Scene, before: seq<Byte>, after: seq<Byte>, w: nat, h: nat, clips: seq<Clip>) {
    && |before| == Bytes(w, h) == |after|
    && forall x: nat, y: nat | x < w && y < h ::
         PixelAt(after, w, h, x, y)
         == if InSome(clips, x, y) then ScenePixel(scene, x, y) else PixelAt(before, w, h, x, y)
  }

  /** Inside `clip`, `after` shows the lowest windows over black. */
  ghost predicate Stacked(below: Scene, before: seq<Byte>, after: seq<Byte>, w: nat, h: nat, clip: Clip) {
    && |before| == Bytes(w, h) == |after|
    && forall x: nat, y: nat | x < w && y < h ::
         PixelAt(after, w, h, x, y)
         == if clip.Contains(x, y) then TopPixelIn(below, clip.x1, x, y) else PixelAt(before, w, h, x, y)
  }

  lemma StackLayer(below: Scene, win: Window, layer: Layer, before: seq<Byte>, cur: seq<Byte>, next: seq<Byte>,
                   w: nat, h: nat, clip: Clip)
    requires Stacked(below, before, cur, w, h, clip) && Painted(cur, next, w, h, clip, layer)
    requires LayerIn(win, clip.x1) == Some(layer)
    ensures Stacked(below + [win], before, next, w, h, clip)
  {
    assert (below + [win])[..|below|] == below;
  }

  lemma StackNothing(below: Scene, win: Window, before: seq<Byte>, cur: seq<Byte>, w: nat, h: nat, clip: Clip)
    requires Stacked(below, before, cur, w, h, clip) && LayerIn(win, clip.x1) == None
    ensures Stacked(below + [win], before, cur, w, h, clip)
  {
    assert (below + [win])[..|below|] == below;
  }

  /** Draws one window's buffer into `canvas`, inside `clip`. */
  method DrawWindow(canvas: array<Byte>, width: nat, height: nat, win: Window, clip: Clip)
    requires canvas.Length == Bytes(width, height) && clip.Within(width, height)
    modifies canvas
    ensures match LayerIn(win, clip.x1)
            case Some(layer) => Painted(old(canvas[..]), canvas[..], width, height, clip, layer)
            case None => canvas[..] == old(canvas[..])
  {
    hide Painted;
    var posX: nat := if win.x < 0 then 0 else win.x;
    var posY: nat := if win.y < 0 then 0 else win.y;
    match win.surface {
      case Shm(pool, offset, w, h, stride) =>
        var expectedLen := stride * h;
        if offset + expectedLen <= |pool| {
          var pixelData := pool[offset..offset + expectedLen];
          BlitBgra(canvas, width, height, posX, posY, pixelData, w, h, stride, clip);
          assert LayerIn(win, clip.x1) == Some(Blit(posX, posY, pixelData, w, h, stride, clip.x1));
        }
      case SinglePixel(r, g, b, a) =>
        FillSolid(canvas, width, height, posX, posY, r, g, b, a, clip);
      case Unreadable =>
    }
  }

  /** `after` shows the scene inside `clip`, as a repaint of that clip draws it. */
  ghost predicate Redrawn(scene: Scene, before: seq<Byte>, after: seq<Byte>, w: nat, h: nat, clip: Clip) {
    && |before| == Bytes(w, h) == |after|
    && forall x: nat, y: nat | x < w && y < h ::
         PixelAt(after, w, h, x, y)
         == if clip.Contains(x, y) then ScenePixelIn(scene, clip.x1, x, y) else PixelAt(before, w, h, x, y)
  }

  /** Clears one clip and repaints it bottom-up. */
  method ComposeClip(canvas: array<Byte>, width: nat, height: nat, scene: Scene, clip: Clip)
    requires canvas.Length == Bytes(width, height) && clip.Within(width, height)
    modifies canvas
    ensures Redrawn(scene, old(canvas[..]), canvas[..], width, height, clip)
  {
    ClearRegion(canvas, width, height, clip);
    for i := 0 to |scene|
      invariant Stacked(scene[..i], old(canvas[..]), canvas[..], width, height, clip)
    {
      ghost var cur := canvas[..];
      DrawWindow(canvas, width, height, scene[i], clip);
      assert scene[..i + 1] == scene[..i] + [scene[i]];
      match LayerIn(scene[i], clip.x1) {
        case Some(layer) =>
          StackLayer(scene[..i], scene[i], layer, old(canvas[..]), cur, canvas[..], width, height, clip);
        case None =>
          StackNothing(scene[..i], scene[i], old(canvas[..]), cur, width, height, clip);
      }
    }
    assert scene[..|scene|] == scene;
    ghost var stacked := canvas[..];
    if |scene| == 0 {
      RenderRootWeave(canvas, width, height, clip);
    }
  }

  /** The right edge of the last clip that holds the pixel. */
  function LastEdge(clips: seq<Clip>, x: nat, y: nat): Option<nat> {
    if clips == [] then None
    else
      var n := |clips| - 1;
      if clips[n].Contains(x, y) then Some(clips[n].x1) else LastEdge(clips[..n], x, y)
  }

  /** What repainting the clips one after another shows, whatever the windows. */
  ghost predicate Composed(scene: Scene, before: seq<Byte>, after: seq<Byte>, w: nat, h: nat, clips: seq<Clip>) {
    && |before| == Bytes(w, h) == |after|
    && forall x: nat, y: nat | x < w && y < h ::
         PixelAt(after, w, h, x, y)
         == match LastEdge(clips, x, y)
            case Some(right) => ScenePixelIn(scene, right, x, y)
            case None => PixelAt(before, w, h, x, y)
  }

  lemma ComposeMore(scene: Scene, a: seq<Byte>, b: seq<Byte>, c: seq<Byte>, w: nat, h: nat, clips: seq<Clip>, clip: Clip)
    requires Composed(scene, a, b, w, h, clips) && Redrawn(scene, b, c, w, h, clip)
    ensures Composed(scene, a, c, w, h, clips + [clip])
  {
    assert (clips + [clip])[..|clips|] == clips;
    forall x: nat, y: nat | x < w && y < h
      ensures LastEdge(clips + [clip], x, y) == if clip.Contains(x, y) then Some(clip.x1) else LastEdge(clips, x, y)
    {
    }
  }

  /** The compositor's clip loop. */
  method ComposeClips(canvas: array<Byte>, width: nat, height: nat, scene: Scene, clips: seq<Clip>)
    requires canvas.Length == Bytes(width, height)
    requires forall i | 0 <= i < |clips| :: clips[i].Within(width, height)
    modifies canvas
    ensures Composed(scene, old(canvas[..]), canvas[..], width, height, clips)
  {
    hide Composed, Redrawn;
    ComposeNone(scene, canvas[..], width, height);
    for i := 0 to |clips|
      invariant Composed(scene, old(canvas[..]), canvas[..], width, height, clips[..i])
    {
      ghost var cur := canvas[..];
      ComposeClip(canvas, width, height, scene, clips[i]);
      ComposeMore(scene, old(canvas[..]), cur, canvas[..], width, height, clips[..i], clips[i]);
      assert clips[..i + 1] == clips[..i] + [clips[i]];
    }
    assert clips[..|clips|] == clips;
  }

  lemma ComposeNone(scene: Scene, b: seq<Byte>, w: nat, h: nat)
    requires |b| == Bytes(w, h)
    ensures Composed(scene, b, b, w, h, [])
  {
  }

  /** Clipped composition refines a full redraw: with windows whose rows do not overlap,
      any clips, in any order and overlapping or not, show the scene's picture inside and
      change nothing outside. */
  lemma ComposedIsRedraw(scene: Scene, before: seq<Byte>, after: seq<Byte>, w: nat, h: nat, clips: seq<Clip>)
    requires WellFormed(scene) && Composed(scene, before, after, w, h, clips)
    ensures Recomposed(scene, before, after, w, h, clips)
  {
    forall x: nat, y: nat | x < w && y < h
      ensures PixelAt(after, w, h, x, y)
           == if InSome(clips, x, y) then ScenePixel(scene, x, y) else PixelAt(before, w, h, x, y)
    {
      EdgeOfSome(clips, x, y);
      if InSome(clips, x, y) {
        EdgeIsIrrelevant(scene, LastEdge(clips, x, y).value, x, y);
      }
    }
  }

  lemma {:induction false} EdgeOfSome(clips: seq<Clip>, x: nat, y: nat)
    ensures InSome(clips, x, y) <==> LastEdge(clips, x, y).Some?
    ensures LastEdge(clips, x, y).Some? ==> x < LastEdge(clips, x, y).value
  {
    if clips != [] {
      var n := |clips| - 1;
      EdgeOfSome(clips[..n], x, y);
      if clips[n].Contains(x, y) {
        assert InSome(clips, x, y);
      } else if InSome(clips, x, y) {
        var i :| 0 <= i < |clips| && clips[i].Contains(x, y);
        assert clips[..n][i].Contains(x, y);
      }
    }
  }

  lemma {:induction false} EdgeIsIrrelevant(scene: Scene, right: nat, x: nat, y: nat)
    requires WellFormed(scene) && x < right
    ensures TopPixelIn(scene, right, x, y) == TopPixelIn(scene, x + 1, x, y)
    ensures ScenePixelIn(scene, right, x, y) == ScenePixel(scene, x, y)
  {
    hide Paint;
    if scene != [] {
      var n := |scene| - 1;
      EdgeIsIrrelevant(scene[..n], right, x, y);
      WellFormedIsEdgeBlind(scene[n], right, x, y);
    }
  }
}
