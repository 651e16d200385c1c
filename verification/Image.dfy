/** BGRA pictures stored row after row in one flat byte buffer, as the
    compositor's canvas and the encoder's input frames are. All arithmetic on
    byte offsets lives in this module; the others reason about rows and pixels. */
module Image {

  type Byte = b: int | 0 <= b < 256

  /** One pixel: blue, green, red, alpha. */
  type Pixel = p: seq<Byte> | |p| == 4 witness [0, 0, 0, 0]

  /** Byte offset of pixel (x, y) in a `w`-wide picture. */
  function Offset(w: nat, x: nat, y: nat): nat {
    (y * w + x) * 4
  }

  /** Size in bytes of a `w` by `h` picture. */
  function Bytes(w: nat, h: nat): nat {
    w * h * 4
  }

  lemma OffsetInside(w: nat, h: nat, x: nat, y: nat)
    requires x <= w && y < h
    ensures Offset(w, x, y) + 4 * (w - x) == Offset(w, 0, y + 1)
    ensures Offset(w, 0, y + 1) <= Offset(w, 0, h) == Bytes(w, h)
  {
    assert (y + 1) * w == y * w + w;
    assert (y + 1) * w <= h * w;
  }

  lemma RowsApart(w: nat, y: nat, z: nat)
    requires y < z
    ensures Offset(w, 0, y + 1) <= Offset(w, 0, z)
  {
    assert (y + 1) * w <= z * w;
  }

  /** Row `y` of a picture. */
  function Row(b: seq<Byte>, w: nat, h: nat, y: nat): (row: seq<Byte>)
    requires |b| == Bytes(w, h) && y < h
    ensures |row| == 4 * w
  {
    OffsetInside(w, h, 0, y);
    b[Offset(w, 0, y)..Offset(w, 0, y + 1)]
  }

  function PixelAt(b: seq<Byte>, w: nat, h: nat, x: nat, y: nat): (p: Pixel)
    requires |b| == Bytes(w, h) && x < w && y < h
  {
    Row(b, w, h, y)[4 * x..4 * x + 4]
  }

  lemma SubSlice(s: seq<Byte>, a: nat, b: nat, i: nat, j: nat)
    requires a <= b <= |s| && i <= j <= b - a
    ensures s[a..b][i..j] == s[a + i..a + j]
  {
    assert forall k | 0 <= k < j - i :: s[a..b][i..j][k] == s[a + i..a + j][k];
  }

  /** `after` is `before` with `span` written at byte `at`. */
  ghost predicate Spliced(before: seq<Byte>, after: seq<Byte>, at: nat, span: seq<Byte>) {
    && at + |span| <= |before|
    && after == before[..at] + span + before[at + |span|..]
  }

  /** Writing whole pixels inside row `y` changes that stretch of that row and no
      other row. */
  lemma SpliceRow(before: seq<Byte>, after: seq<Byte>, w: nat, h: nat, x: nat, y: nat, span: seq<Byte>)
    requires |before| == Bytes(w, h) && y < h && 4 * x + |span| <= 4 * w
    requires Spliced(before, after, Offset(w, x, y), span)
    ensures |after| == |before|
    ensures Row(after, w, h, y) == Row(before, w, h, y)[..4 * x] + span + Row(before, w, h, y)[4 * x + |span|..]
    ensures forall r | 0 <= r < h && r != y :: Row(after, w, h, r) == Row(before, w, h, r)
  {
    OffsetInside(w, h, x, y);
    var row, o := Row(before, w, h, y), Offset(w, 0, y);
    assert Offset(w, x, y) == o + 4 * x;
    assert before[..o + 4 * x] == before[..o] + row[..4 * x];
    assert before[o + 4 * x + |span|..] == row[4 * x + |span|..] + before[Offset(w, 0, y + 1)..];
    forall r | 0 <= r < h && r != y
      ensures Row(after, w, h, r) == Row(before, w, h, r)
    {
      OffsetInside(w, h, 0, r);
      if r < y { RowsApart(w, r, y); } else { RowsApart(w, y, r); }
    }
  }

  /** The same, pixel by pixel. */
  lemma SplicePixels(before: seq<Byte>, after: seq<Byte>, w: nat, h: nat, x: nat, y: nat, n: nat, span: seq<Byte>)
    requires |before| == Bytes(w, h) && y < h && x + n <= w && |span| == 4 * n
    requires Spliced(before, after, Offset(w, x, y), span)
    ensures |after| == |before|
    ensures forall px: nat, py: nat | px < w && py < h ::
              PixelAt(after, w, h, px, py)
              == if py == y && x <= px < x + n then span[4 * (px - x)..4 * (px - x) + 4] else PixelAt(before, w, h, px, py)
  {
    SpliceRow(before, after, w, h, x, y, span);
    var was, now := Row(before, w, h, y), Row(after, w, h, y);
    forall px: nat | px < w
      ensures now[4 * px..4 * px + 4]
           == if x <= px < x + n then span[4 * (px - x)..4 * (px - x) + 4] else was[4 * px..4 * px + 4]
    {
      SplicedPixel(was, now, x, n, span, px);
    }
  }

  lemma SplicedPixel(was: seq<Byte>, now: seq<Byte>, x: nat, n: nat, span: seq<Byte>, px: nat)
    requires |span| == 4 * n && 4 * (x + n) <= |was| && 4 * px + 4 <= |was|
    requires now == was[..4 * x] + span + was[4 * x + |span|..]
    ensures now[4 * px..4 * px + 4]
         == if x <= px < x + n then span[4 * (px - x)..4 * (px - x) + 4] else was[4 * px..4 * px + 4]
  {
    if px < x {
      assert now[..4 * x] == was[..4 * x];
      SubSlice(now, 0, 4 * x, 4 * px, 4 * px + 4);
      SubSlice(was, 0, 4 * x, 4 * px, 4 * px + 4);
    } else if px < x + n {
      assert now[4 * x..4 * x + 4 * n] == span;
      SubSlice(now, 4 * x, 4 * x + 4 * n, 4 * (px - x), 4 * (px - x) + 4);
    } else {
      assert now[4 * x + |span|..] == was[4 * x + |span|..];
      var k := 4 * (px - x - n);
      SubSlice(now, 4 * x + |span|, |now|, k, k + 4);
      SubSlice(was, 4 * x + |span|, |was|, k, k + 4);
    }
  }

  /** A pixel is four neighbouring bytes, rows packed without padding. */
  lemma PixelBytes(b: seq<Byte>, w: nat, h: nat, x: nat, y: nat)
    requires |b| == Bytes(w, h) && x < w && y < h
    ensures Offset(w, x, y) == 4 * (y * w + x) && Offset(w, x, y) + 4 <= |b|
    ensures PixelAt(b, w, h, x, y) == b[Offset(w, x, y)..Offset(w, x, y) + 4]
  {
    OffsetInside(w, h, 0, y);
    RowStart(w, x, y);
    SubSlice(b, Offset(w, 0, y), Offset(w, 0, y + 1), 4 * x, 4 * x + 4);
  }

  /** Rows with the same pixels are the same bytes. */
  lemma RowFromPixels(a: seq<Byte>, b: seq<Byte>, w: nat, h: nat, y: nat)
    requires |a| == Bytes(w, h) == |b| && y < h
    requires forall x | 0 <= x < w :: PixelAt(a, w, h, x, y) == PixelAt(b, w, h, x, y)
    ensures Row(a, w, h, y) == Row(b, w, h, y)
  {
    var p, q := Row(a, w, h, y), Row(b, w, h, y);
    forall j | 0 <= j < 4 * w ensures p[j] == q[j] {
      var x := j / 4;
      assert PixelAt(a, w, h, x, y)[j - 4 * x] == PixelAt(b, w, h, x, y)[j - 4 * x];
    }
  }

  /** The picture with given pixels. */
  function PictureOf(w: nat, h: nat, pixel: (nat, nat) -> Pixel): (b: seq<Byte>)
    ensures |b| == Bytes(w, h)
  {
    seq(Bytes(w, h), i requires 0 <= i < Bytes(w, h) => ByteOf(w, h, pixel, i))
  }

  function ByteOf(w: nat, h: nat, pixel: (nat, nat) -> Pixel, i: nat): Byte
    requires i < Bytes(w, h)
  {
    assert w > 0;
    pixel(i / 4 % w, i / 4 / w)[i % 4]
  }

  lemma PictureOfAt(w: nat, h: nat, pixel: (nat, nat) -> Pixel, x: nat, y: nat)
    requires x < w && y < h
    ensures PixelAt(PictureOf(w, h, pixel), w, h, x, y) == pixel(x, y)
  {
    var b, at := PictureOf(w, h, pixel), Offset(w, x, y);
    OffsetInside(w, h, x, y);
    RowStart(w, x, y);
    var p := PixelAt(b, w, h, x, y);
    SubSlice(b, Offset(w, 0, y), Offset(w, 0, y + 1), 4 * x, 4 * x + 4);
    forall k | 0 <= k < 4 ensures p[k] == pixel(x, y)[k] {
      assert p[k] == b[at + k];
      IndexParts(w, x, y, k);
    }
  }

  lemma RowStart(w: nat, x: nat, y: nat)
    ensures Offset(w, x, y) == Offset(w, 0, y) + 4 * x
  {
  }

  lemma IndexParts(w: nat, x: nat, y: nat, k: nat)
    requires x < w && k < 4
    ensures var i := Offset(w, x, y) + k; i / 4 % w == x && i / 4 / w == y && i % 4 == k
  {
    var n := y * w + x;
    assert (n * 4 + k) / 4 == n;
    DivMod(w, x, y);
  }

  lemma {:induction false} DivMod(w: nat, x: nat, y: nat)
    requires x < w
    ensures (y * w + x) / w == y && (y * w + x) % w == x
  {
    var q, r := (y * w + x) / w, (y * w + x) % w;
    assert (q - y) * w == x - r;
    if q > y {
      AtLeastOne(q - y, w);
      assert false;
    } else if q < y {
      AtLeastOne(y - q, w);
      assert false;
    }
  }

  lemma AtLeastOne(d: int, w: nat)
    requires d > 0
    ensures d * w >= w
  {
    assert d * w == (d - 1) * w + w;
  }

  /** `slice[at..at + |span|].copy_from_slice(span)`. */
  method CopyBytes(dst: array<Byte>, at: nat, span: seq<Byte>)
    requires at + |span| <= dst.Length
    modifies dst
    ensures Spliced(old(dst[..]), dst[..], at, span)
  {
    forall i | 0 <= i < |span| {
      dst[at + i] := span[i];
    }
  }
}
