/** Captured frames on their way to the encoder, and the link that makes damage-only
    conversion sound: a frame differs from its predecessor only in the rows it
    reports. */
module Frames {
  import opened Image
  import opened Damage
  import opened Convert

  /** `buf` names the recycled allocation the pixels live in; `asks` counts the
      keyframe requests and `serial` the frames queued before this one was. An empty
      damage list means the whole frame. */
  datatype Frame = Frame(w: nat, h: nat, data: seq<Byte>, damage: seq<Band>, buf: nat, asks: nat, serial: nat)

  /** Sizes whose byte count fits the 32-bit arithmetic of the pipeline. */
  predicate SizeOk(w: nat, h: nat) {
    0 < w && 0 < h && Bytes(w, h) <= U32_MAX
  }

  lemma HeightFits(w: nat, h: nat)
    requires SizeOk(w, h)
    ensures h < U32_MAX
  {
    assert w * h >= h;
  }

  ghost predicate FrameOk(f: Frame) {
    SizeOk(f.w, f.h) && |f.data| == Bytes(f.w, f.h)
  }

  function Rows(f: Frame): (rows: seq<Line>)
    requires |f.data| == Bytes(f.w, f.h)
    ensures |rows| == f.h
  {
    seq(f.h, r requires 0 <= r < f.h => Row(f.data, f.w, f.h, r))
  }

  ghost predicate SamePicture(a: Frame, b: Frame) {
    a.w == b.w && a.h == b.h && a.data == b.data
  }

  /** Outside the rows `b` reports, `b` has the size and the rows of `a`. */
  ghost predicate Link(a: Frame, b: Frame) {
    && FrameOk(a) && FrameOk(b)
    && (b.damage == [] ||
        forall r: nat | r < b.h && !RowIn(b.damage, r) ::
          a.w == b.w && a.h == b.h && Row(a.data, a.w, a.h, r) == Row(b.data, b.w, b.h, r))
  }

  /** Each frame is linked to the one before it. */
  ghost predicate Linked(fs: seq<Frame>) {
    forall i, j | 0 <= i && j == i + 1 < |fs| :: Link(fs[i], fs[j])
  }

  // ---------------------------------------------------------------- skipping

  /** The newer frame after taking over the damage of the skipped one. */
  function TakeOver(stale: Frame, newer: Frame): Frame {
    newer.(damage := if newer.damage == [] || stale.damage == [] then [] else newer.damage + stale.damage)
  }

  function NewestOf(first: Frame, rest: seq<Frame>): Frame
    decreases |rest|
  {
    if rest == [] then first else NewestOf(TakeOver(first, rest[0]), rest[1..])
  }

  lemma RowInEither(a: seq<Band>, b: seq<Band>, r: int)
    ensures RowIn(a + b, r) <==> RowIn(a, r) || RowIn(b, r)
  {
    if RowIn(a + b, r) {
      var i :| 0 <= i < |a + b| && (a + b)[i].Contains(r);
      if i < |a| { assert a[i].Contains(r); } else { assert b[i - |a|].Contains(r); }
    }
    if RowIn(a, r) {
      var i :| 0 <= i < |a| && a[i].Contains(r);
      assert (a + b)[i].Contains(r);
    }
    if RowIn(b, r) {
      var i :| 0 <= i < |b| && b[i].Contains(r);
      assert (a + b)[|a| + i].Contains(r);
    }
  }

  /** Skipping a frame keeps the chain: the newer frame is linked to whatever the
      skipped one was linked to. */
  lemma TakeOverLinks(base: Frame, stale: Frame, newer: Frame)
    requires Link(base, stale) && Link(stale, newer)
    ensures Link(base, TakeOver(stale, newer))
  {
    forall r: nat ensures RowIn(newer.damage + stale.damage, r) <==> RowIn(newer.damage, r) || RowIn(stale.damage, r) {
      RowInEither(newer.damage, stale.damage, r);
    }
  }

  function LastOf(first: Frame, rest: seq<Frame>): Frame {
    if rest == [] then first else rest[|rest| - 1]
  }

  lemma LastOfTail(first: Frame, next: Frame, rest: seq<Frame>)
    ensures rest == [] ==> LastOf(first, rest) == first
    ensures |rest| == 1 ==> LastOf(first, rest) == rest[0] && LastOf(next, rest[1..]) == next
    ensures |rest| > 1 ==> LastOf(first, rest) == LastOf(next, rest[1..])
  {
  }

  predicate SameButDamage(a: Frame, b: Frame) {
    a == b.(damage := a.damage)
  }

  /** The frame kept is the last one. */
  lemma {:induction false} NewestIsLast(first: Frame, rest: seq<Frame>)
    ensures SameButDamage(NewestOf(first, rest), LastOf(first, rest))
    decreases |rest|
  {
    hide LastOf;
    if rest == [] {
      LastOfTail(first, first, rest);
    } else {
      LastOfTail(first, TakeOver(first, rest[0]), rest);
      NewestIsLast(TakeOver(first, rest[0]), rest[1..]);
    }
  }

  /** Its damage is the union of the damage of every frame skipped and its own, and an
      empty list anywhere makes it a whole-frame conversion. */
  lemma {:induction false} NewestCoversAll(first: Frame, rest: seq<Frame>)
    ensures var kept := NewestOf(first, rest);
            && (kept.damage == [] <==> first.damage == [] || exists i :: 0 <= i < |rest| && rest[i].damage == [])
            && (kept.damage != [] ==> forall r :: RowIn(kept.damage, r) <==>
                 RowIn(first.damage, r) || exists i :: 0 <= i < |rest| && RowIn(rest[i].damage, r))
    decreases |rest|
  {
    if rest != [] {
      var next, tail := TakeOver(first, rest[0]), rest[1..];
      NewestCoversAll(next, tail);
      OneOrLater(rest, (f: Frame) => f.damage == []);
      if NewestOf(first, rest).damage != [] {
        forall r ensures RowIn(NewestOf(first, rest).damage, r) <==>
                         RowIn(first.damage, r) || exists i :: 0 <= i < |rest| && RowIn(rest[i].damage, r)
        {
          RowInEither(rest[0].damage, first.damage, r);
          OneOrLater(rest, (f: Frame) => RowIn(f.damage, r));
        }
      }
    }
  }

  lemma OneOrLater(rest: seq<Frame>, p: Frame -> bool)
    requires rest != []
    ensures (exists i :: 0 <= i < |rest| && p(rest[i])) <==> p(rest[0]) || exists i :: 0 <= i < |rest[1..]| && p(rest[1..][i])
  {
    if i :| 0 <= i < |rest| && p(rest[i]) {
      assert i == 0 || p(rest[1..][i - 1]);
    }
    if i :| 0 <= i < |rest[1..]| && p(rest[1..][i]) {
      assert p(rest[i + 1]);
    }
  }

  lemma {:induction false} NewestLinks(base: Frame, first: Frame, rest: seq<Frame>)
    requires Link(base, first) && Linked([first] + rest)
    ensures Link(base, NewestOf(first, rest))
    decreases |rest|
  {
    var all := [first] + rest;
    if rest != [] {
      assert Link(all[0], all[1]);
      TakeOverLinks(base, first, rest[0]);
      var next := TakeOver(first, rest[0]);
      var less := [next] + rest[1..];
      forall i, j | 0 <= i && j == i + 1 < |less| ensures Link(less[i], less[j]) {
        assert Link(all[i + 1], all[j + 1]);
      }
      NewestLinks(base, next, rest[1..]);
    }
  }

  // ---------------------------------------------------------------- converting

  /** The part of a frame's buffer that an encoder configured for `w` by `h` reads. */
  function Viewed(f: Frame, w: nat, h: nat): Frame
    requires Bytes(w, h) <= |f.data|
  {
    f.(w := w, h := h, data := f.data[..Bytes(w, h)])
  }

  /** What converting `f` does to planes of its size. */
  ghost predicate Converted(cv: Converter, was: Planes, f: Frame, full: bool, now: Planes)
    requires |f.data| == Bytes(f.w, f.h) && Sized(was, f.h) && Sized(now, f.h)
  {
    if full || f.damage == [] then now == FullConvert(cv, Rows(f))
    else Mixed(was, FullConvert(cv, Rows(f)), now, f.damage, f.h)
  }

  /** Converting a linked frame's bands over its predecessor's planes leaves exactly
      the frame's full conversion. */
  lemma ConvertedIsFull(cv: Converter, base: Frame, was: Planes, f: Frame, full: bool, now: Planes)
    requires Link(base, f) && base.w == f.w && base.h == f.h
    requires Sized(was, f.h) && Sized(now, f.h) && Converted(cv, was, f, full, now)
    requires was == FullConvert(cv, Rows(base))
    ensures now == FullConvert(cv, Rows(f))
  {
    HeightFits(f.w, f.h);
    if !(full || f.damage == []) {
      BandedIsFull(cv, Rows(base), Rows(f), f.damage, now);
    }
  }
}
