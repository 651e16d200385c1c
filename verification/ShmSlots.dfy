/** The native client's shared-memory renderer: three buffer slots that are released,
    held or zombies, against a compositor that releases buffers whenever it likes. */
module ShmSlots {
  import opened Image
  import opened Numbers
  import opened Options

  const NUM_SLOTS: nat := 3

  /** One buffer: `buf` is its identity on the wire, `pixels` its mapped memory. */
  datatype Slot = Slot(buf: nat, pixels: array<Byte>, w: nat, h: nat, released: bool, zombie: bool)

  type Slots = s: seq<Option<Slot>> | |s| == NUM_SLOTS witness [None, None, None]

  datatype Commit = Commit(buf: nat, w: nat, h: nat)

  /** The buffers of some commits. */
  ghost function Buffers(commits: seq<Commit>): set<nat> {
    set c | c in commits :: c.buf
  }

  lemma NewBuffers(a: seq<Commit>, b: seq<Commit>)
    requires a <= b
    ensures |b| == |a| ==> Buffers(b[|a|..]) == {}
    ensures |b| == |a| + 1 ==> Buffers(b[|a|..]) == {b[|a|].buf}
  {
    if |b| == |a| + 1 {
      assert b[|a|..] == [b[|a|]];
    }
  }

  lemma BuffersJoin(a: seq<Commit>, b: seq<Commit>)
    ensures Buffers(a + b) == Buffers(a) + Buffers(b)
  {
    assert forall c :: c in a + b <==> c in a || c in b;
  }

  /** A decoded picture, rows packed without padding. */
  datatype Decoded = Decoded(w: nat, h: nat, pixels: seq<Byte>)

  // ---------------------------------------------------------------- the slot discipline

  /** The slot a live buffer sits in is the one its user data names. */
  ghost predicate Occupies(slots: Slots, user: map<nat, nat>, buf: nat) {
    buf in user && user[buf] < NUM_SLOTS && slots[user[buf]].Some? && slots[user[buf]].value.buf == buf
  }

  /** `held` are the buffers the compositor has attached, `releases` the Release events
      on their way back. */
  ghost predicate Disciplined(slots: Slots, w: nat, h: nat, user: map<nat, nat>, held: set<nat>, releases: seq<nat>) {
    && (forall i | 0 <= i < NUM_SLOTS && slots[i].Some? :: SlotOk(slots[i].value, i, w, h, user, held, releases))
    && (forall i, j | 0 <= i < j < NUM_SLOTS && slots[i].Some? && slots[j].Some? :: slots[i].value.pixels != slots[j].value.pixels)
    && (forall b | b in held :: Occupies(slots, user, b) && b !in releases)
    && (forall k | 0 <= k < |releases| :: Occupies(slots, user, releases[k]))
    && (forall j, k | 0 <= j < k < |releases| :: releases[j] != releases[k])
  }

  ghost predicate SlotOk(s: Slot, i: nat, w: nat, h: nat, user: map<nat, nat>, held: set<nat>, releases: seq<nat>) {
    && s.buf in user && user[s.buf] == i
    && s.pixels.Length == Bytes(s.w, s.h)
    && (s.released <==> s.buf !in held && s.buf !in releases)
    && (s.zombie ==> !s.released)
    && (!s.zombie ==> s.w == w && s.h == h)
  }

  /** A released slot of the current size: the only kind that may be written. */
  predicate Free(s: Option<Slot>) {
    s.Some? && s.value.released && !s.value.zombie
  }

  /** An empty slot or one the compositor is done with: a buffer can be had there. */
  predicate Usable(s: Option<Slot>) {
    s.None? || s.value.released
  }

  predicate AnyUsable(slots: seq<Option<Slot>>) {
    exists i :: 0 <= i < |slots| && Usable(slots[i])
  }

  lemma ZombiesAreHeld(slots: Slots, w: nat, h: nat, user: map<nat, nat>, held: set<nat>, releases: seq<nat>)
    requires Disciplined(slots, w, h, user, held, releases)
    ensures forall i | 0 <= i < NUM_SLOTS && slots[i].Some? && slots[i].value.zombie :: !slots[i].value.released
  {
  }

  /** Filling an empty slot with a new buffer. */
  lemma CreateKeeps(slots: Slots, w: nat, h: nat, user: map<nat, nat>, held: set<nat>, releases: seq<nat>, i: nat, s: Slot)
    requires Disciplined(slots, w, h, user, held, releases) && i < NUM_SLOTS && slots[i] == None
    requires s.buf !in user && s.pixels.Length == Bytes(w, h) && s.w == w && s.h == h && s.released && !s.zombie
    requires forall j | 0 <= j < NUM_SLOTS && slots[j].Some? :: slots[j].value.pixels != s.pixels
    ensures Disciplined(slots[i := Some(s)], w, h, user[s.buf := i], held, releases)
  {
    assert s.buf !in held && s.buf !in releases;
  }

  /** Attaching a free slot hands its buffer to the compositor. */
  lemma AttachKeeps(slots: Slots, w: nat, h: nat, user: map<nat, nat>, held: set<nat>, releases: seq<nat>, i: nat)
    requires Disciplined(slots, w, h, user, held, releases) && i < NUM_SLOTS && Free(slots[i])
    ensures var s := slots[i].value;
            s.w == w && s.h == h
            && Disciplined(slots[i := Some(s.(released := false))], w, h, user, held + {s.buf}, releases)
  {
  }

  /** The compositor may release any buffer it holds. */
  lemma ServerReleaseKeeps(slots: Slots, w: nat, h: nat, user: map<nat, nat>, held: set<nat>, releases: seq<nat>, b: nat)
    requires Disciplined(slots, w, h, user, held, releases) && b in held
    ensures Disciplined(slots, w, h, user, held - {b}, releases + [b])
  {
    assert forall x :: x in releases + [b] <==> x in releases || x == b;
  }

  /** A dispatched Release frees the very buffer it was sent for. */
  function AfterRelease(s: Slot): Option<Slot> {
    if s.zombie then None else Some(s.(released := true))
  }

  lemma DispatchKeeps(slots: Slots, w: nat, h: nat, user: map<nat, nat>, held: set<nat>, releases: seq<nat>)
    requires Disciplined(slots, w, h, user, held, releases) && releases != []
    ensures Occupies(slots, user, releases[0])
    ensures var i := user[releases[0]];
            Disciplined(slots[i := AfterRelease(slots[i].value)], w, h, user, held, releases[1..])
  {
    var b, i := releases[0], user[releases[0]];
    var next := slots[i := AfterRelease(slots[i].value)];
    assert releases == [b] + releases[1..];
    forall x ensures x in releases <==> x == b || x in releases[1..] {}
    forall k | 0 <= k < |releases[1..]| ensures Occupies(next, user, releases[1..][k]) {
      assert releases[k + 1] != b;
    }
    forall j | 0 <= j < NUM_SLOTS && next[j].Some? ensures SlotOk(next[j].value, j, w, h, user, held, releases[1..]) {
      assert SlotOk(slots[j].value, j, w, h, user, held, releases);
    }
  }

  /** What a resize does to one slot: free ones go, held ones wait as zombies. */
  function Retired(s: Option<Slot>): Option<Slot> {
    match s
    case None => None
    case Some(v) => if v.released then None else Some(v.(zombie := true))
  }

  lemma RetireKeeps(slots: Slots, w: nat, h: nat, user: map<nat, nat>, held: set<nat>, releases: seq<nat>, w': nat, h': nat)
    requires Disciplined(slots, w, h, user, held, releases)
    ensures Disciplined(seq(NUM_SLOTS, i requires 0 <= i < NUM_SLOTS => Retired(slots[i])), w', h', user, held, releases)
  {
  }

  /** A released slot's buffer is neither held nor on its way back. */
  lemma FreeIsIdle(slots: Slots, w: nat, h: nat, user: map<nat, nat>, held: set<nat>, releases: seq<nat>)
    requires Disciplined(slots, w, h, user, held, releases)
    ensures forall i | 0 <= i < NUM_SLOTS && slots[i].Some? && slots[i].value.released ::
              slots[i].value.buf !in held && slots[i].value.buf !in releases
  {
  }

  lemma ReleasedOnce(slots: Slots, w: nat, h: nat, user: map<nat, nat>, held: set<nat>, releases: seq<nat>)
    requires Disciplined(slots, w, h, user, held, releases) && releases != []
    ensures releases[0] !in releases[1..] && releases[0] !in held
  {
    assert forall k | 0 <= k < |releases[1..]| :: releases[1..][k] == releases[k + 1];
  }

  /** The released slot to use next, searching cyclically from the preferred one. */
  function PickNextReleased(released: seq<bool>, preferred: nat): (picked: Option<nat>)
    requires |released| == NUM_SLOTS && preferred < NUM_SLOTS
    ensures picked.Some? ==> picked.value < NUM_SLOTS && released[picked.value]
    ensures picked.None? <==> forall i | 0 <= i < NUM_SLOTS :: !released[i]
    ensures released[preferred] ==> picked == Some(preferred)
    ensures picked.Some? ==> exists i :: 0 <= i < NUM_SLOTS && picked.value == Wrapped(preferred, i)
                               && forall k | 0 <= k < i :: !released[Wrapped(preferred, k)]
  {
    PickFrom(released, preferred, 0)
  }

  /** Which slots are free. */
  function FreeSlots(slots: seq<Option<Slot>>): (free: seq<bool>)
    ensures |free| == |slots| && forall i | 0 <= i < |slots| :: free[i] == Free(slots[i])
  {
    seq(|slots|, i requires 0 <= i < |slots| => Free(slots[i]))
  }

  function PickFrom(released: seq<bool>, preferred: nat, i: nat): (picked: Option<nat>)
    requires |released| == NUM_SLOTS && preferred < NUM_SLOTS && i <= NUM_SLOTS
    ensures picked.Some? ==> picked.value < NUM_SLOTS && released[picked.value]
    ensures picked.None? ==> forall k | i <= k < NUM_SLOTS :: !released[Wrapped(preferred, k)]
    ensures picked.Some? ==> exists j :: i <= j < NUM_SLOTS && picked.value == Wrapped(preferred, j)
                               && forall k | i <= k < j :: !released[Wrapped(preferred, k)]
    decreases NUM_SLOTS - i
  {
    if i == NUM_SLOTS then None
    else if released[Wrapped(preferred, i)] then Some(Wrapped(preferred, i))
    else PickFrom(released, preferred, i + 1)
  }

  function Wrapped(preferred: nat, i: nat): (slot: nat)
    ensures slot < NUM_SLOTS
  {
    (preferred + i) % NUM_SLOTS
  }

  /** From the preferred slot upwards, and from the last to the first. */
  lemma CyclicOrder(preferred: nat, i: nat)
    requires preferred < NUM_SLOTS
    ensures Wrapped(preferred, 0) == preferred
    ensures Wrapped(preferred, i + 1) == if Wrapped(preferred, i) + 1 == NUM_SLOTS then 0 else Wrapped(preferred, i) + 1
  {
  }

  // ---------------------------------------------------------------- pixels

  /** `after` is `before` with the top-left `bw` by `bh` pixels of the source at (x0, y0). */
  ghost predicate Placed(before: seq<Byte>, after: seq<Byte>, dw: nat, dh: nat,
                         src: seq<Byte>, sw: nat, sh: nat, x0: nat, y0: nat, bw: nat, bh: nat)
    requires |src| == Bytes(sw, sh) && bw <= sw && bh <= sh
  {
    && |before| == Bytes(dw, dh) == |after|
    && forall x: nat, y: nat | x < dw && y < dh ::
         PixelAt(after, dw, dh, x, y)
         == if x0 <= x < x0 + bw && y0 <= y < y0 + bh then PixelAt(src, sw, sh, x - x0, y - y0)
            else PixelAt(before, dw, dh, x, y)
  }

  lemma PlaceRow(start: seq<Byte>, cur: seq<Byte>, next: seq<Byte>, dw: nat, dh: nat,
                 src: seq<Byte>, sw: nat, sh: nat, x0: nat, y0: nat, bw: nat, row: nat)
    requires |src| == Bytes(sw, sh) && bw <= sw && row < sh && x0 + bw <= dw && y0 + row < dh
    requires Placed(start, cur, dw, dh, src, sw, sh, x0, y0, bw, row)
    requires Spliced(cur, next, Offset(dw, x0, y0 + row), Row(src, sw, sh, row)[..4 * bw])
    ensures Placed(start, next, dw, dh, src, sw, sh, x0, y0, bw, row + 1)
  {
    var span := Row(src, sw, sh, row)[..4 * bw];
    SplicePixels(cur, next, dw, dh, x0, y0 + row, bw, span);
    var from := Row(src, sw, sh, row);
    forall x: nat, y: nat | x < dw && y < dh
      ensures PixelAt(next, dw, dh, x, y)
           == if x0 <= x < x0 + bw && y0 <= y < y0 + row + 1 then PixelAt(src, sw, sh, x - x0, y - y0)
              else PixelAt(start, dw, dh, x, y)
    {
      hide Row, Bytes;
      if y == y0 + row && x0 <= x < x0 + bw {
        SubSlice(from, 0, 4 * bw, 4 * (x - x0), 4 * (x - x0) + 4);
      }
    }
  }

  /** A packed source at least as tall as the destination, and as wide, is one copy. */
  lemma PlaceWhole(before: seq<Byte>, src: seq<Byte>, w: nat, dh: nat, sh: nat)
    requires |before| == Bytes(w, dh) && |src| == Bytes(w, sh) && dh <= sh
    ensures Bytes(w, dh) <= |src| && Placed(before, src[..Bytes(w, dh)], w, dh, src, w, sh, 0, 0, w, dh)
  {
    BytesMonotone(w, dh, sh);
    var after := src[..Bytes(w, dh)];
    forall y: nat | y < dh ensures Row(after, w, dh, y) == Row(src, w, sh, y) {
      PrefixRow(src, w, dh, sh, y);
    }
  }

  lemma BytesMonotone(w: nat, dh: nat, sh: nat)
    requires dh <= sh
    ensures Bytes(w, dh) <= Bytes(w, sh)
  {
    assert w * dh <= w * sh;
  }

  lemma PrefixRow(src: seq<Byte>, w: nat, dh: nat, sh: nat, y: nat)
    requires |src| == Bytes(w, sh) && y < dh <= sh && Bytes(w, dh) <= |src|
    ensures Row(src[..Bytes(w, dh)], w, dh, y) == Row(src, w, sh, y)
  {
    OffsetInside(w, dh, 0, y);
    hide Offset, Bytes;
    var a, b, n := Offset(w, 0, y), Offset(w, 0, y + 1), Bytes(w, dh);
    assert src[..n][a..b] == src[a..b];
  }

  /** Centres the source in the destination; every byte read or written is in bounds. */
  method BlitInto(src: seq<Byte>, srcW: nat, srcH: nat, dst: array<Byte>, dstW: nat, dstH: nat, blitW: nat, blitH: nat)
    requires |src| == Bytes(srcW, srcH) && dst.Length == Bytes(dstW, dstH)
    requires blitW <= srcW && blitW <= dstW && blitH <= srcH && blitH <= dstH
    modifies dst
    ensures Placed(old(dst[..]), dst[..], dstW, dstH, src, srcW, srcH, (dstW - blitW) / 2, (dstH - blitH) / 2, blitW, blitH)
  {
    ghost var start := dst[..];
    var srcStride := srcW * 4;
    var dstStride := dstW * 4;
    if blitW == dstW && blitH == dstH && srcStride == dstStride {
      PlaceWhole(start, src, dstW, dstH, srcH);
      CopyBytes(dst, 0, src[..dst.Length]);
      assert dst[..] == src[..dst.Length];
      return;
    }
    hide Placed;
    var xOff := (dstW - blitW) / 2;
    var yOff := (dstH - blitH) / 2;
    LetterboxRows(src, srcW, srcH, dst, dstW, dstH, xOff, yOff, blitW, blitH);
  }

  method LetterboxRows(src: seq<Byte>, srcW: nat, srcH: nat, dst: array<Byte>, dstW: nat, dstH: nat, xOff: nat, yOff: nat, blitW: nat, blitH: nat)
    requires |src| == Bytes(srcW, srcH) && dst.Length == Bytes(dstW, dstH)
    requires blitW <= srcW && xOff + blitW <= dstW && blitH <= srcH && yOff + blitH <= dstH
    modifies dst
    ensures Placed(old(dst[..]), dst[..], dstW, dstH, src, srcW, srcH, xOff, yOff, blitW, blitH)
  {
    hide Placed, Row, Spliced, Offset, Bytes;
    ghost var start := dst[..];
    PlaceNothing(start, dstW, dstH, src, srcW, srcH, xOff, yOff, blitW);
    for row := 0 to blitH
      invariant Placed(start, dst[..], dstW, dstH, src, srcW, srcH, xOff, yOff, blitW, row)
    {
      ghost var cur := dst[..];
      OffsetInside(srcW, srcH, 0, row);
      OffsetInside(dstW, dstH, xOff, yOff + row);
      var srcOff := row * (srcW * 4);
      var dstOff := (yOff + row) * (dstW * 4) + xOff * 4;
      Strides(srcW, 0, row);
      Strides(dstW, xOff, yOff + row);
      RowPrefix(src, srcW, srcH, row, blitW);
      PlacedLength(start, dst[..], dstW, dstH, src, srcW, srcH, xOff, yOff, blitW, row);
      CopyBytes(dst, dstOff, src[srcOff..srcOff + blitW * 4]);
      PlaceRow(start, cur, dst[..], dstW, dstH, src, srcW, srcH, xOff, yOff, blitW, row);
    }
  }

  lemma RowPrefix(src: seq<Byte>, w: nat, h: nat, row: nat, n: nat)
    requires |src| == Bytes(w, h) && row < h && n <= w
    ensures Offset(w, 0, row) + n * 4 <= |src|
    ensures src[Offset(w, 0, row)..Offset(w, 0, row) + n * 4] == Row(src, w, h, row)[..4 * n]
  {
    OffsetInside(w, h, 0, row);
    SubSlice(src, Offset(w, 0, row), Offset(w, 0, row + 1), 0, 4 * n);
  }

  lemma Strides(w: nat, x: nat, y: nat)
    ensures y * (w * 4) + x * 4 == Offset(w, x, y)
  {
  }

  lemma PlacedLength(before: seq<Byte>, after: seq<Byte>, dw: nat, dh: nat,
                     src: seq<Byte>, sw: nat, sh: nat, x0: nat, y0: nat, bw: nat, bh: nat)
    requires |src| == Bytes(sw, sh) && bw <= sw && bh <= sh
    requires Placed(before, after, dw, dh, src, sw, sh, x0, y0, bw, bh)
    ensures |after| == Bytes(dw, dh)
  {
  }

  lemma PlaceNothing(b: seq<Byte>, dw: nat, dh: nat, src: seq<Byte>, sw: nat, sh: nat, x0: nat, y0: nat, bw: nat)
    requires |b| == Bytes(dw, dh) && |src| == Bytes(sw, sh) && bw <= sw
    ensures Placed(b, b, dw, dh, src, sw, sh, x0, y0, bw, 0)
  {
  }

  /** Sizes that differ by at most two pixels: the server rounds sizes to even numbers. */
  predicate Near(a: nat, b: nat) { -2 <= a - b <= 2 }

  lemma NearIsTwoPixels(a: nat, b: nat)
    ensures Near(a, b) <==> a <= b + 2 && b <= a + 2
  {
  }

  /** The picture shows the frame centred, cropped to the picture where larger. */
  ghost predicate Shown(frame: Decoded, picture: seq<Byte>, w: nat, h: nat)
    requires |frame.pixels| == Bytes(frame.w, frame.h)
  {
    var bw, bh := Min(frame.w, w), Min(frame.h, h);
    && |picture| == Bytes(w, h)
    && forall x: nat, y: nat | x < bw && y < bh ::
         PixelAt(picture, w, h, (w - bw) / 2 + x, (h - bh) / 2 + y) == PixelAt(frame.pixels, frame.w, frame.h, x, y)
  }

  lemma PlacedIsShown(before: seq<Byte>, after: seq<Byte>, frame: Decoded, w: nat, h: nat)
    requires |frame.pixels| == Bytes(frame.w, frame.h)
    requires var bw, bh := Min(frame.w, w), Min(frame.h, h);
             Placed(before, after, w, h, frame.pixels, frame.w, frame.h, (w - bw) / 2, (h - bh) / 2, bw, bh)
    ensures Shown(frame, after, w, h)
  {
    hide Placed, PixelAt, Bytes;
    var bw, bh := Min(frame.w, w), Min(frame.h, h);
    PlacedInside(before, after, w, h, frame.pixels, frame.w, frame.h, (w - bw) / 2, (h - bh) / 2, bw, bh);
  }

  lemma PlacedInside(before: seq<Byte>, after: seq<Byte>, dw: nat, dh: nat,
                     src: seq<Byte>, sw: nat, sh: nat, x0: nat, y0: nat, bw: nat, bh: nat)
    requires |src| == Bytes(sw, sh) && bw <= sw && bh <= sh && x0 + bw <= dw && y0 + bh <= dh
    requires Placed(before, after, dw, dh, src, sw, sh, x0, y0, bw, bh)
    ensures |after| == Bytes(dw, dh)
    ensures forall x: nat, y: nat | x < bw && y < bh ::
              PixelAt(after, dw, dh, x0 + x, y0 + y) == PixelAt(src, sw, sh, x, y)
  {
    hide PixelAt, Bytes;
    forall x: nat, y: nat | x < bw && y < bh
      ensures PixelAt(after, dw, dh, x0 + x, y0 + y) == PixelAt(src, sw, sh, x, y)
    {
      var px, py := x0 + x, y0 + y;
      assert PixelAt(after, dw, dh, px, py) == PixelAt(src, sw, sh, px - x0, py - y0);
    }
  }
}
