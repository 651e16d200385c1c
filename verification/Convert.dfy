/** BGRA to YUV 4:2:0 conversion, in full and only in the damaged row bands.
    The colour arithmetic itself is a parameter: a luma row depends on one picture
    row, a row of each chroma plane on a pair. */
module Convert {
  import opened Image
  import opened Damage

  type Line = seq<Byte>

  datatype Converter = Converter(luma: Line -> Line, u: (Line, Line) -> Line, v: (Line, Line) -> Line)

  /** The rows of the three planes. */
  datatype Planes = Planes(luma: seq<Line>, u: seq<Line>, v: seq<Line>)

  function ChromaRows(h: nat): nat { (h + 1) / 2 }

  ghost predicate Sized(p: Planes, h: nat) {
    |p.luma| == h && |p.u| == ChromaRows(h) == |p.v|
  }

  /** The second row a chroma row is made of; the last row alone when the height is odd. */
  function Partner(c: nat, h: nat): nat
    requires c < ChromaRows(h)
  {
    if 2 * c + 1 < h then 2 * c + 1 else h - 1
  }

  function FullConvert(cv: Converter, rows: seq<Line>): Planes {
    var h := |rows|;
    Planes(
      seq(h, r requires 0 <= r < h => cv.luma(rows[r])),
      seq(ChromaRows(h), c requires 0 <= c < ChromaRows(h) => cv.u(rows[2 * c], rows[Partner(c, h)])),
      seq(ChromaRows(h), c requires 0 <= c < ChromaRows(h) => cv.v(rows[2 * c], rows[Partner(c, h)])))
  }

  /** Each luma row comes from the picture row of its number, each chroma row from the two
      rows it covers, or from the last one alone. */
  lemma FullConvertAt(cv: Converter, rows: seq<Line>, c: nat)
    requires 2 * c < |rows|
    ensures var full, first, last := FullConvert(cv, rows), rows[2 * c], rows[if 2 * c + 1 < |rows| then 2 * c + 1 else 2 * c];
            && full.luma[2 * c] == cv.luma(first) && (2 * c + 1 < |rows| ==> full.luma[2 * c + 1] == cv.luma(last))
            && full.u[c] == cv.u(first, last) && full.v[c] == cv.v(first, last)
  {
    assert Partner(c, |rows|) == if 2 * c + 1 < |rows| then 2 * c + 1 else 2 * c;
  }

  // ---------------------------------------------------------------- bands

  const U32_MAX: nat := 0xFFFF_FFFF

  function SaturatingAdd(a: nat, b: nat): nat {
    if a + b > U32_MAX then U32_MAX else a + b
  }

  function ClearLowBit(a: nat): nat { a - a % 2 }

  function BandStart(b: Band): nat { ClearLowBit(b.y) }

  function BandEnd(b: Band, height: nat): nat {
    var up := ClearLowBit(SaturatingAdd(SaturatingAdd(b.y, b.height), 1));
    if up < height then up else height
  }

  /** Luma row `r` is inside the snapped, clamped band. */
  predicate LumaBand(b: Band, height: nat, r: int) {
    BandStart(b) <= r < BandEnd(b, height)
  }

  /** Chroma row `c` is written by converting the band, if anything is. */
  predicate ChromaBand(b: Band, height: nat, c: int) {
    BandStart(b) < BandEnd(b, height) && BandStart(b) / 2 <= c < ChromaRows(BandEnd(b, height))
  }

  ghost predicate LumaTouched(damage: seq<Band>, height: nat, r: int) {
    exists i :: 0 <= i < |damage| && LumaBand(damage[i], height, r)
  }

  ghost predicate ChromaTouched(damage: seq<Band>, height: nat, c: int) {
    exists i :: 0 <= i < |damage| && ChromaBand(damage[i], height, c)
  }

  /** Rows of `full` where touched, of `kept` elsewhere. */
  ghost predicate Mixed(kept: Planes, full: Planes, mixed: Planes, damage: seq<Band>, h: nat)
    requires Sized(kept, h) && Sized(full, h) && Sized(mixed, h)
  {
    && (forall r | 0 <= r < h :: mixed.luma[r] == if LumaTouched(damage, h, r) then full.luma[r] else kept.luma[r])
    && (forall c | 0 <= c < ChromaRows(h) :: mixed.u[c] == if ChromaTouched(damage, h, c) then full.u[c] else kept.u[c])
    && (forall c | 0 <= c < ChromaRows(h) :: mixed.v[c] == if ChromaTouched(damage, h, c) then full.v[c] else kept.v[c])
  }

  /** Rows `[y0, y1)` of the picture, and the chroma rows they make, taken from `full`. */
  ghost predicate Sliced(kept: Planes, full: Planes, now: Planes, y0: nat, y1: nat, h: nat)
    requires Sized(kept, h) && Sized(full, h) && Sized(now, h)
  {
    && (forall r | 0 <= r < h :: now.luma[r] == if y0 <= r < y1 then full.luma[r] else kept.luma[r])
    && (forall c | 0 <= c < ChromaRows(h) :: now.u[c] == if y0 / 2 <= c < ChromaRows(y1) then full.u[c] else kept.u[c])
    && (forall c | 0 <= c < ChromaRows(h) :: now.v[c] == if y0 / 2 <= c < ChromaRows(y1) then full.v[c] else kept.v[c])
  }

  /** Chroma rows counted from an even start row pair up the same picture rows. */
  lemma SlicePairs(y0: nat, n: nat, h: nat, c: nat)
    requires y0 % 2 == 0 && y0 + n <= h && (n % 2 == 0 || y0 + n == h)
    ensures y0 / 2 + ChromaRows(n) == ChromaRows(y0 + n) <= ChromaRows(h)
    ensures c < ChromaRows(n) ==> y0 + 2 * c == 2 * (y0 / 2 + c) && y0 + Partner(c, n) == Partner(y0 / 2 + c, h)
  {
  }

  /** Luma rows `[y0, y0 + n)` written from the same picture rows. */
  ghost predicate LumaWritten(f: Line -> Line, input: seq<Line>, y0: nat, n: nat, was: seq<Line>, now: seq<Line>)
    requires y0 + n <= |input| == |was| == |now|
  {
    forall r | 0 <= r < |input| :: now[r] == if y0 <= r < y0 + n then f(input[r]) else was[r]
  }

  /** Rows of a chroma plane from `y0 / 2` on written from the `n` picture rows at `y0`. */
  ghost predicate ChromaWritten(f: (Line, Line) -> Line, input: seq<Line>, y0: nat, n: nat, was: seq<Line>, now: seq<Line>)
    requires y0 + n <= |input| && |was| == ChromaRows(|input|) == |now|
  {
    && (forall c | 0 <= c < |now| && !(y0 / 2 <= c < y0 / 2 + ChromaRows(n)) :: now[c] == was[c])
    && (forall c: nat | c < ChromaRows(n) && y0 / 2 + c < |now| ::
          now[y0 / 2 + c] == f(input[y0 + 2 * c], input[y0 + Partner(c, n)]))
  }

  lemma ChromaEffect(f: (Line, Line) -> Line, input: seq<Line>, y0: nat, n: nat, was: seq<Line>, now: seq<Line>, c: nat)
    requires y0 % 2 == 0 && y0 + n <= |input| && (n % 2 == 0 || y0 + n == |input|)
    requires |was| == ChromaRows(|input|) == |now| && c < |now| && ChromaWritten(f, input, y0, n, was, now)
    ensures now[c] == if y0 / 2 <= c < ChromaRows(y0 + n) then f(input[2 * c], input[Partner(c, |input|)]) else was[c]
  {
    SlicePairs(y0, n, |input|, if y0 / 2 <= c then c - y0 / 2 else 0);
  }

  lemma ScaleEffect(cv: Converter, input: seq<Line>, y0: nat, n: nat, was: Planes, now: Planes)
    requires Sized(was, |input|) && Sized(now, |input|)
    requires y0 % 2 == 0 && y0 + n <= |input| && (n % 2 == 0 || y0 + n == |input|)
    requires LumaWritten(cv.luma, input, y0, n, was.luma, now.luma)
    requires ChromaWritten(cv.u, input, y0, n, was.u, now.u) && ChromaWritten(cv.v, input, y0, n, was.v, now.v)
    ensures Sliced(was, FullConvert(cv, input), now, y0, y0 + n, |input|)
  {
    hide ChromaWritten, ChromaRows, Partner;
    forall c: nat | c < ChromaRows(|input|)
      ensures now.u[c] == if y0 / 2 <= c < ChromaRows(y0 + n) then FullConvert(cv, input).u[c] else was.u[c]
      ensures now.v[c] == if y0 / 2 <= c < ChromaRows(y0 + n) then FullConvert(cv, input).v[c] else was.v[c]
    {
      ChromaEffect(cv.u, input, y0, n, was.u, now.u, c);
      ChromaEffect(cv.v, input, y0, n, was.v, now.v, c);
    }
  }

  /** A damaged row lies in its snapped band, whatever the saturation does. */
  lemma SnapCovers(b: Band, height: nat, r: nat)
    requires r < height < U32_MAX && b.Contains(r)
    ensures LumaBand(b, height, r)
  {
  }

  /** It takes in at most one row more at each end, so that it starts at an even row and
      ends at one, or at the last. */
  lemma SnapIsTight(b: Band, height: nat)
    requires b.y + b.height < U32_MAX
    ensures BandStart(b) % 2 == 0 && b.y - 1 <= BandStart(b) <= b.y
    ensures BandEnd(b, height) <= height && BandEnd(b, height) <= b.y + b.height + 1
    ensures BandEnd(b, height) % 2 == 0 || BandEnd(b, height) == height
  {
  }

  /** Snapping to even rows keeps the two rows of a chroma row together. */
  lemma SnapKeepsPairs(b: Band, height: nat, c: nat, r: nat)
    requires c < ChromaRows(height) && r in {2 * c, Partner(c, height)}
    requires LumaBand(b, height, r)
    ensures ChromaBand(b, height, c)
  {
  }

  /** Where no band touched a chroma row, neither of its rows was damaged. */
  lemma UntouchedPair(damage: seq<Band>, height: nat, c: nat, r: nat)
    requires c < ChromaRows(height) && height < U32_MAX && r in {2 * c, Partner(c, height)}
    ensures RowIn(damage, r) ==> ChromaTouched(damage, height, c)
  {
    if RowIn(damage, r) {
      var i :| 0 <= i < |damage| && damage[i].Contains(r);
      SnapCovers(damage[i], height, r);
      SnapKeepsPairs(damage[i], height, c, r);
    }
  }

  /** Banded conversion is full conversion: if the planes hold a conversion of `prev`
      and every row that differs from `prev` is damaged, mixing in the bands gives
      the conversion of `rows`. */
  lemma BandedIsFull(cv: Converter, prev: seq<Line>, rows: seq<Line>, damage: seq<Band>, mixed: Planes)
    requires |prev| == |rows| < U32_MAX && Sized(mixed, |rows|)
    requires forall r | 0 <= r < |rows| && !RowIn(damage, r) :: prev[r] == rows[r]
    requires Mixed(FullConvert(cv, prev), FullConvert(cv, rows), mixed, damage, |rows|)
    ensures mixed == FullConvert(cv, rows)
  {
    var h, full := |rows|, FullConvert(cv, rows);
    forall r | 0 <= r < h ensures mixed.luma[r] == full.luma[r] {
      if RowIn(damage, r) {
        var i :| 0 <= i < |damage| && damage[i].Contains(r);
        SnapCovers(damage[i], h, r);
      }
    }
    forall c | 0 <= c < ChromaRows(h) ensures mixed.u[c] == full.u[c] && mixed.v[c] == full.v[c] {
      UntouchedPair(damage, h, c, 2 * c);
      UntouchedPair(damage, h, c, Partner(c, h));
    }
    assert mixed.luma == full.luma && mixed.u == full.u && mixed.v == full.v;
  }

  // ---------------------------------------------------------------- the conversion itself

  /** The encoder's persistent YUV picture, each plane an array of rows. */
  class YuvFrame {
    const height: nat
    const luma: array<Line>
    const u: array<Line>
    const v: array<Line>

    ghost predicate Valid() {
      && luma.Length == height && u.Length == ChromaRows(height) == v.Length
      && luma != u && luma != v && u != v
    }

    ghost function Contents(): (p: Planes)
      requires Valid()
      reads luma, u, v
      ensures Sized(p, height)
    {
      Planes(luma[..], u[..], v[..])
    }

    /** A freshly allocated frame: sized planes, arbitrary contents. */
    constructor (h: nat)
      ensures Valid() && height == h && fresh(luma) && fresh(u) && fresh(v)
    {
      height := h;
      luma := new Line[h];
      u := new Line[ChromaRows(h)];
      v := new Line[ChromaRows(h)];
    }

    /** One scaler call on `n` rows starting at row `y0`: plane pointers are moved to
        rows `y0` and `y0 / 2` and every access stays inside its plane. */
    method Scale(cv: Converter, input: seq<Line>, y0: nat, n: nat)
      requires Valid() && |input| == height && y0 % 2 == 0 && y0 + n <= height
      requires n % 2 == 0 || y0 + n == height
      modifies luma, u, v
      ensures Sliced(old(Contents()), FullConvert(cv, input), Contents(), y0, y0 + n, height)
    {
      hide FullConvert, Sliced, Partner, ChromaRows;
      SlicePairs(y0, n, height, 0);
      ghost var was := Contents();
      WriteLuma(cv.luma, input, y0, n);
      WriteChroma(u, cv.u, input, y0, n);
      WriteChroma(v, cv.v, input, y0, n);
      ScaleEffect(cv, input, y0, n, was, Contents());
    }

    method WriteLuma(f: Line -> Line, input: seq<Line>, y0: nat, n: nat)
      requires luma.Length == |input| && y0 + n <= |input|
      modifies luma
      ensures LumaWritten(f, input, y0, n, old(luma[..]), luma[..])
    {
      forall r | y0 <= r < y0 + n {
        luma[r] := f(input[r]);
      }
    }

    method WriteChroma(plane: array<Line>, f: (Line, Line) -> Line, input: seq<Line>, y0: nat, n: nat)
      requires y0 + n <= |input| && plane.Length == ChromaRows(|input|) && y0 / 2 + ChromaRows(n) <= plane.Length
      modifies plane
      ensures ChromaWritten(f, input, y0, n, old(plane[..]), plane[..])
    {
      forall c | 0 <= c < ChromaRows(n) {
        plane[y0 / 2 + c] := f(input[y0 + 2 * c], input[y0 + Partner(c, n)]);
      }
    }

    method ConvertAll(cv: Converter, input: seq<Line>)
      requires Valid() && |input| == height
      modifies luma, u, v
      ensures Contents() == FullConvert(cv, input)
    {
      Scale(cv, input, 0, height);
      assert Contents().luma == FullConvert(cv, input).luma;
      assert Contents().u == FullConvert(cv, input).u;
      assert Contents().v == FullConvert(cv, input).v;
    }

    /** One damaged band, snapped to even rows and clamped. */
    method ConvertBand(cv: Converter, input: seq<Line>, band: Band)
      requires Valid() && |input| == height
      modifies luma, u, v
      ensures if BandStart(band) < BandEnd(band, height)
              then Sliced(old(Contents()), FullConvert(cv, input), Contents(), BandStart(band), BandEnd(band, height), height)
              else Contents() == old(Contents())
    {
      hide Sliced, FullConvert;
      var y0 := ClearLowBit(band.y);
      var up := ClearLowBit(SaturatingAdd(SaturatingAdd(band.y, band.height), 1));
      var y1 := if up < height then up else height;
      if y1 > y0 {
        Scale(cv, input, y0, y1 - y0);
      }
    }

    method ConvertDamagedRows(cv: Converter, input: seq<Line>, damage: seq<Band>)
      requires Valid() && |input| == height
      modifies luma, u, v
      ensures Mixed(old(Contents()), FullConvert(cv, input), Contents(), damage, height)
    {
      ghost var was, full := Contents(), FullConvert(cv, input);
      MixNothing(was, full, height);
      hide Mixed, Sliced, FullConvert, Sized, ChromaRows, BandStart, BandEnd;
      for i := 0 to |damage|
        invariant Mixed(was, full, Contents(), damage[..i], height)
      {
        ghost var cur := Contents();
        ConvertBand(cv, input, damage[i]);
        MixOneMore(was, full, cur, Contents(), damage, i, height);
      }
      assert damage[..|damage|] == damage;
    }
  }

  lemma MixNothing(was: Planes, full: Planes, h: nat)
    requires Sized(was, h) && Sized(full, h)
    ensures Mixed(was, full, was, [], h)
  {
  }

  lemma MixOneMore(was: Planes, full: Planes, cur: Planes, next: Planes, damage: seq<Band>, i: nat, h: nat)
    requires i < |damage| && Sized(was, h) && Sized(full, h) && Sized(cur, h) && Sized(next, h)
    requires Mixed(was, full, cur, damage[..i], h)
    requires var y0, y1 := BandStart(damage[i]), BandEnd(damage[i], h);
             if y0 < y1 then Sliced(cur, full, next, y0, y1, h) else next == cur
    ensures Mixed(was, full, next, damage[..i + 1], h)
  {
    assert damage[..i + 1] == damage[..i] + [damage[i]];
    forall k | 0 <= k < h
      ensures next.luma[k] == if LumaTouched(damage[..i + 1], h, k) then full.luma[k] else was.luma[k]
    {
      TouchedSnoc(damage[..i], damage[i], h, k);
    }
    forall k | 0 <= k < ChromaRows(h)
      ensures next.u[k] == if ChromaTouched(damage[..i + 1], h, k) then full.u[k] else was.u[k]
      ensures next.v[k] == if ChromaTouched(damage[..i + 1], h, k) then full.v[k] else was.v[k]
    {
      TouchedSnoc(damage[..i], damage[i], h, k);
    }
  }

  lemma TouchedSnoc(less: seq<Band>, b: Band, h: nat, k: int)
    ensures LumaTouched(less + [b], h, k) == (LumaTouched(less, h, k) || LumaBand(b, h, k))
    ensures ChromaTouched(less + [b], h, k) == (ChromaTouched(less, h, k) || ChromaBand(b, h, k))
  {
    var more := less + [b];
    assert more[|less|] == b;
    assert forall j | 0 <= j < |less| :: more[j] == less[j];
  }
}
