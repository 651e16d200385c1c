/** The shm renderer's operations, with the compositor's side of the protocol (which
    buffers it holds, which releases are on their way) as part of the state. */
module ShmRendering {
  import opened Image
  import opened Options
  import opened ShmHistory
  import opened ShmSlots

  class ShmRenderer {
    const slots: array<Option<Slot>>
    var width: nat
    var height: nat
    var nextIdx: nat
    /** Buffers created so far, with the slot index each carries as user data. */
    var user: map<nat, nat>
    var nextBuf: nat
    /** Buffers the compositor holds, and Release events not yet dispatched. */
    var held: set<nat>
    var releases: seq<nat>
    /** Every commit made, with the buffer attached and its size. */
    var commits: seq<Commit>
    /** Everything that happened to any buffer, on both sides of the wire. */
    ghost var log: seq<Wire>

    ghost predicate Valid()
      reads this, slots
    {
      && slots.Length == NUM_SLOTS && nextIdx < NUM_SLOTS
      && (forall b | b in user :: b < nextBuf)
      && Disciplined(slots[..], width, height, user, held, releases)
      && Recorded(log, slots[..], user, held, releases) && CommitsIn(log) == commits
    }

    /** The mapped memory of the slots. */
    ghost function Memory(): set<object>
      reads this, slots
    {
      set i | 0 <= i < slots.Length && slots[i].Some? :: slots[i].value.pixels
    }

    /** The last commit was a buffer of the current size, now held, that shows the frame. */
    ghost predicate Shows(frame: Decoded)
      reads this, slots, Memory()
      requires slots.Length == NUM_SLOTS && |frame.pixels| == Bytes(frame.w, frame.h)
    {
      && commits != []
      && exists i :: 0 <= i < NUM_SLOTS && slots[i].Some? && var s := slots[i].value;
           commits[|commits| - 1] == Commit(s.buf, width, height) && s.buf in held && Shown(frame, s.pixels[..], width, height)
    }

    constructor (w: nat, h: nat)
      ensures Valid() && width == w && height == h && held == {} && releases == [] && commits == []
      ensures forall i | 0 <= i < NUM_SLOTS :: Free(slots[i])
      ensures fresh(slots) && fresh(Memory())
    {
      slots := new Option<Slot>[NUM_SLOTS](_ => None);
      width, height, nextIdx, user, nextBuf := w, h, 0, map[], 0;
      held, releases, commits, log := {}, [], [], [];
      new;
      NothingRecorded(slots[..]);
      RecreateSlots();
    }

    /** A new buffer of the current size in the empty slot `idx`. */
    method CreateBufferSlot(idx: nat)
      requires Valid() && idx < NUM_SLOTS && slots[idx].None?
      modifies this`user, this`nextBuf, this`log, slots
      ensures Valid() && Free(slots[idx]) && fresh(slots[idx].value.pixels)
      ensures log == old(log) + [Created(slots[idx].value.buf)]
      ensures forall i | 0 <= i < NUM_SLOTS && i != idx :: slots[i] == old(slots[i])
      ensures fresh(Memory() - old(Memory()))
    {
      hide Disciplined, Recorded, CommitsIn;
      ghost var was := slots[..];
      var pixels := new Byte[width * height * 4](_ => 0);
      var slot := Slot(nextBuf, pixels, width, height, true, false);
      CreateKeeps(was, width, height, user, held, releases, idx, slot);
      RecordCreated(log, was, user, held, releases, idx, slot);
      Appended(log, Created(slot.buf));
      log := log + [Created(slot.buf)];
      slots[idx] := Some(slot);
      user := user[nextBuf := idx];
      nextBuf := nextBuf + 1;
      assert slots[..] == was[idx := Some(slot)];
    }

    /** Fills every empty slot with a new buffer of the current size and leaves the
        others, zombies included, alone. */
    method RecreateSlots()
      requires Valid()
      modifies this`user, this`nextBuf, this`log, slots
      ensures Valid() && fresh(Memory() - old(Memory())) && old(log) <= log
      ensures forall i | 0 <= i < NUM_SLOTS :: if old(slots[i]).Some? then slots[i] == old(slots[i]) else Free(slots[i])
      ensures forall i | 0 <= i < NUM_SLOTS :: Free(slots[i]) <==> Usable(old(slots[i]))
    {
      hide Disciplined, Recorded, CommitsIn;
      ZombiesAreHeld(slots[..], width, height, user, held, releases);
      for idx := 0 to NUM_SLOTS
        invariant Valid() && fresh(Memory() - old(Memory())) && old(log) <= log
        invariant forall i | 0 <= i < NUM_SLOTS && old(slots[i]).Some? :: slots[i] == old(slots[i])
        invariant forall i | 0 <= i < idx && old(slots[i]).None? :: Free(slots[i])
        invariant forall i | idx <= i < NUM_SLOTS :: slots[i] == old(slots[i])
      {
        if slots[idx].None? {
          CreateBufferSlot(idx);
        }
      }
    }

    /** Drops released slots at once and turns held ones into zombies: no buffer the
        compositor holds is destroyed. */
    method Resize(newW: nat, newH: nat)
      requires Valid()
      modifies this`width, this`height, this`log, slots
      ensures Valid() && width == newW && height == newH && old(log) <= log
      ensures if newW == old(width) && newH == old(height) then slots[..] == old(slots[..]) && log == old(log)
              else forall i | 0 <= i < NUM_SLOTS :: slots[i] == Retired(old(slots[i]))
    {
      hide Disciplined, Recorded, CommitsIn;
      if newW == width && newH == height {
        return;
      }
      ghost var was := slots[..];
      FreeIsIdle(was, width, height, user, held, releases);
      RetireKeeps(was, width, height, user, held, releases, newW, newH);
      for idx := 0 to NUM_SLOTS
        modifies slots, this`log
        invariant forall i | 0 <= i < idx :: slots[i] == Retired(was[i])
        invariant forall i | idx <= i < NUM_SLOTS :: slots[i] == was[i]
        invariant Recorded(log, slots[..], user, held, releases) && CommitsIn(log) == commits && old(log) <= log
      {
        ghost var cur := slots[..];
        match slots[idx] {
          case Some(s) =>
            if s.released {
              RecordDestroyed(log, cur, user, held, releases, idx);
              Appended(log, Destroyed(s.buf));
              log := log + [Destroyed(s.buf)];
              slots[idx] := None;
              assert slots[..] == cur[idx := None];
            } else {
              RecordSame(log, cur, user, held, releases, idx, s.(zombie := true));
              slots[idx] := Some(s.(zombie := true));
              assert slots[..] == cur[idx := Some(s.(zombie := true))];
            }
          case None =>
        }
      }
      assert slots[..] == seq(NUM_SLOTS, i requires 0 <= i < NUM_SLOTS => Retired(was[i]));
      width, height := newW, newH;
    }

    /** Attaches the free slot `idx` and commits it: a buffer of the current size that
        the compositor did not hold. */
    method AttachAndCommit(idx: nat)
      requires Valid() && idx < NUM_SLOTS && Free(slots[idx])
      modifies this`nextIdx, this`held, this`commits, this`log, slots
      ensures Valid()
      ensures var s := old(slots[idx]).value;
              && log == old(log) + [Committed(s.buf, width, height)]
              && s.buf !in old(held) && s.buf !in releases && held == old(held) + {s.buf}
              && commits == old(commits) + [Commit(s.buf, width, height)]
              && slots[..] == old(slots[..])[idx := Some(s.(released := false))]
      ensures nextIdx == (idx + 1) % NUM_SLOTS && Memory() == old(Memory())
    {
      hide Disciplined, Recorded, CommitsIn;
      ghost var was := slots[..];
      var s := slots[idx].value;
      AttachKeeps(was, width, height, user, held, releases, idx);
      FreeIsIdle(was, width, height, user, held, releases);
      RecordCommitted(log, was, user, held, releases, idx, s.w, s.h, s.(released := false));
      Appended(log, Committed(s.buf, s.w, s.h));
      log := log + [Committed(s.buf, s.w, s.h)];
      slots[idx] := Some(s.(released := false));
      assert slots[..] == was[idx := Some(s.(released := false))];
      assert forall i | 0 <= i < NUM_SLOTS && slots[i].Some? :: old(slots[i]).Some? && old(slots[i]).value.pixels == slots[i].value.pixels;
      assert forall i | 0 <= i < NUM_SLOTS && old(slots[i]).Some? :: slots[i].Some? && old(slots[i]).value.pixels == slots[i].value.pixels;
      held := held + {s.buf};
      commits := commits + [Commit(s.buf, s.w, s.h)];
      nextIdx := (idx + 1) % NUM_SLOTS;
    }

    /** Shows the first free slot, if there is one. */
    method Prime() returns (ok: bool)
      requires Valid()
      modifies this`nextIdx, this`held, this`commits, this`log, slots
      ensures Valid() && releases == old(releases) && old(log) <= log
      ensures ok <==> exists i :: 0 <= i < NUM_SLOTS && Free(old(slots[i]))
      ensures if ok then exists b :: b !in old(held) && b !in releases && commits == old(commits) + [Commit(b, width, height)] && held == old(held) + {b}
              else commits == old(commits) && held == old(held) && slots[..] == old(slots[..])
      ensures Memory() == old(Memory())
      ensures Free(old(slots[0])) ==> forall i | 1 <= i < NUM_SLOTS :: slots[i] == old(slots[i])
    {
      hide Disciplined, Recorded, CommitsIn;
      var idx := 0;
      while idx < NUM_SLOTS && !(slots[idx].Some? && slots[idx].value.released && !slots[idx].value.zombie)
        invariant idx <= NUM_SLOTS
        invariant forall i | 0 <= i < idx :: !Free(slots[i])
      {
        idx := idx + 1;
      }
      if idx == NUM_SLOTS {
        return false;
      }
      assert Free(old(slots[idx]));
      AttachAndCommit(idx);
      ok := true;
    }

    /** A resize followed at once by a commit of the new size, unless every slot is
        still held. */
    method ResizeAndPrime(newW: nat, newH: nat) returns (ok: bool)
      requires Valid()
      modifies this, slots
      ensures Valid() && width == newW && height == newH && releases == old(releases) && old(log) <= log
      ensures fresh(Memory() - old(Memory()))
      ensures if ok then exists b :: b !in old(held) && b !in releases && commits == old(commits) + [Commit(b, newW, newH)] && held == old(held) + {b}
              else commits == old(commits) && held == old(held)
      ensures ok <==> AnyUsable(old(slots[..]))
      ensures !ok ==> !AnyUsable(slots[..])
    {
      hide Disciplined, Recorded, CommitsIn;
      Resize(newW, newH);
      assert Memory() <= old(Memory());
      assert forall i | 0 <= i < NUM_SLOTS :: Usable(slots[i]) <==> Usable(old(slots[..])[i]);
      RecreateSlots();
      ok := Prime();
    }

    /** The compositor releases a buffer it holds; the event is now on its way. */
    method ServerRelease(b: nat)
      requires Valid() && b in held
      modifies this`held, this`releases, this`log
      ensures Valid() && held == old(held) - {b} && releases == old(releases) + [b] && log == old(log) + [LetGo(b)]
    {
      hide Disciplined, Recorded, CommitsIn;
      ServerReleaseKeeps(slots[..], width, height, user, held, releases, b);
      RecordLetGo(log, slots[..], user, held, releases, b);
      Appended(log, LetGo(b));
      log := log + [LetGo(b)];
      held := held - {b};
      releases := releases + [b];
    }

    method ReleaseSlot(idx: nat)
      requires slots.Length == NUM_SLOTS
      modifies slots
      ensures if idx < NUM_SLOTS && old(slots[..])[idx].Some?
              then slots[..] == old(slots[..])[idx := AfterRelease(old(slots[..])[idx].value)]
              else slots[..] == old(slots[..])
    {
      if idx < slots.Length {
        match slots[idx] {
          case Some(s) =>
            slots[idx] := Some(s.(released := true));
            if s.zombie {
              slots[idx] := None;
            }
          case None =>
        }
      }
    }

    /** The oldest Release event reaches the client: the slot its user data names still
        holds the very buffer it was sent for, across any resizes in between. */
    method DispatchRelease()
      requires Valid() && releases != []
      modifies this`releases, this`log, slots
      ensures Valid() && releases == old(releases)[1..] && Memory() <= old(Memory())
      ensures Occupies(old(slots[..]), user, old(releases)[0])
      ensures var b := old(releases)[0]; var s := old(slots[..])[user[b]].value;
              && slots[..] == old(slots[..])[user[b] := AfterRelease(s)]
              && log == old(log) + [Told(s.buf)] + if s.zombie then [Destroyed(s.buf)] else []
    {
      hide Disciplined, Recorded, CommitsIn;
      ghost var was := slots[..];
      DispatchKeeps(was, width, height, user, held, releases);
      ReleasedOnce(was, width, height, user, held, releases);
      RecordTold(log, was, user, held, releases);
      var b := releases[0];
      ghost var s := was[user[b]].value;
      Appended(log, Told(b));
      log := log + [Told(s.buf)];
      releases := releases[1..];
      if s.zombie {
        RecordDestroyed(log, was, user, held, releases, user[b]);
        Appended(log, Destroyed(b));
        log := log + [Destroyed(s.buf)];
      } else {
        RecordSame(log, was, user, held, releases, user[b], s.(released := true));
      }
      ReleaseSlot(user[b]);
    }

    /** Fills empty slots, then picks a free one, the preferred one if it is free. */
    method PickFree() returns (picked: Option<nat>)
      requires Valid()
      modifies this`user, this`nextBuf, this`log, slots
      ensures Valid() && fresh(Memory() - old(Memory())) && old(log) <= log
      ensures forall i | 0 <= i < NUM_SLOTS && old(slots[i]).Some? :: slots[i] == old(slots[i])
      ensures picked.Some? <==> AnyUsable(old(slots[..]))
      ensures picked.Some? ==> picked.value < NUM_SLOTS && Free(slots[picked.value])
      ensures Free(slots[nextIdx]) ==> picked == Some(nextIdx)
      ensures picked.None? ==> slots[..] == old(slots[..])
    {
      hide Disciplined, Recorded, CommitsIn, Free, PickNextReleased;
      RecreateSlots();
      picked := PickNextReleased(FreeSlots(slots[..]), nextIdx);
      assert forall i | 0 <= i < NUM_SLOTS :: Usable(old(slots[..])[i]) <==> Free(slots[i]);
    }

    /** Shows one decoded frame. Only a free slot of the current size is written, so
        the memory of every buffer the compositor holds is untouched. */
    method Render(frame: Decoded) returns (ok: bool)
      requires Valid() && |frame.pixels| == Bytes(frame.w, frame.h)
      modifies this`user, this`nextBuf, this`nextIdx, this`held, this`commits, this`log, slots, Memory()
      ensures Valid() && fresh(Memory() - old(Memory())) && old(log) <= log
      ensures forall i | 0 <= i < NUM_SLOTS && old(slots[i]).Some? && !old(slots[i]).value.released ::
                slots[i] == old(slots[i]) && old(slots[i]).value.pixels[..] == old(slots[i].value.pixels[..])
      ensures if ok
              then exists i :: 0 <= i < NUM_SLOTS && slots[i].Some? && !slots[i].value.zombie && var s := slots[i].value;
                && s.buf !in old(held) && s.buf !in releases && held == old(held) + {s.buf}
                && commits == old(commits) + [Commit(s.buf, width, height)]
                && Near(frame.w, width) && Near(frame.h, height) && Shown(frame, s.pixels[..], width, height)
              else commits == old(commits) && held == old(held)
      ensures ok <==> Near(frame.w, width) && Near(frame.h, height) && AnyUsable(old(slots[..]))
      ensures !AnyUsable(old(slots[..])) ==> slots[..] == old(slots[..])
    {
      hide Disciplined, Recorded, CommitsIn, Shown, Near;
      var picked := PickFree();
      if picked.None? {
        return false;
      }
      ok := ShowIn(picked.value, frame);
      assert ok ==> slots[picked.value].Some? && !slots[picked.value].value.zombie;
    }

    /** Takes every decoded frame waiting and shows only the newest; nothing is shown
        once the decoder has hung up. */
    method TryDrain(frames: seq<Decoded>, disconnected: bool) returns (count: nat)
      requires Valid() && forall k | 0 <= k < |frames| :: |frames[k].pixels| == Bytes(frames[k].w, frames[k].h)
      modifies this`user, this`nextBuf, this`nextIdx, this`held, this`commits, this`log, slots, Memory()
      ensures Valid() && fresh(Memory() - old(Memory())) && old(log) <= log && count == |frames|
      ensures var shown := !disconnected && frames != [] && AnyUsable(old(slots[..]))
                && Near(frames[|frames| - 1].w, width) && Near(frames[|frames| - 1].h, height);
              if shown then |commits| == |old(commits)| + 1 && commits[..|old(commits)|] == old(commits) && Shows(frames[|frames| - 1])
              else commits == old(commits)
      ensures old(commits) <= commits && held == old(held) + Buffers(commits[|old(commits)|..])
      ensures !AnyUsable(old(slots[..])) ==> slots[..] == old(slots[..])
      ensures forall i | 0 <= i < NUM_SLOTS && old(slots[i]).Some? && !old(slots[i]).value.released ::
                slots[i] == old(slots[i]) && old(slots[i]).value.pixels[..] == old(slots[i].value.pixels[..])
    {
      hide Disciplined, Recorded, CommitsIn, Shown;
      var latest: Option<Decoded> := None;
      count := 0;
      while count < |frames|
        invariant count <= |frames|
        invariant latest == if count == 0 then None else Some(frames[count - 1])
      {
        latest := Some(frames[count]);
        count := count + 1;
      }
      if disconnected {
        return;
      }
      if latest.Some? {
        var rendered := Render(latest.value);
      }
    }

    /** Writes a frame into the free slot `idx` and commits it, unless its size is more
        than two pixels off. */
    method ShowIn(idx: nat, frame: Decoded) returns (ok: bool)
      requires Valid() && |frame.pixels| == Bytes(frame.w, frame.h) && idx < NUM_SLOTS && Free(slots[idx])
      modifies this`nextIdx, this`held, this`commits, this`log, slots, slots[idx].value.pixels
      ensures Valid() && ok == (Near(frame.w, width) && Near(frame.h, height)) && Memory() == old(Memory())
      ensures var s := old(slots[idx]).value;
              if ok then
                && s.buf !in old(held) && s.buf !in releases && held == old(held) + {s.buf}
                && commits == old(commits) + [Commit(s.buf, width, height)]
                && log == old(log) + [Written(s.buf)] + [Committed(s.buf, width, height)]
                && slots[..] == old(slots[..])[idx := Some(s.(released := false))]
                && Shown(frame, s.pixels[..], width, height)
              else commits == old(commits) && held == old(held) && slots[..] == old(slots[..]) && log == old(log)
      ensures forall i | 0 <= i < NUM_SLOTS && i != idx && old(slots[i]).Some? ::
                slots[i] == old(slots[i]) && old(slots[i]).value.pixels[..] == old(slots[i].value.pixels[..])
    {
      hide Recorded, CommitsIn, Shown, Placed;
      var slot := slots[idx].value;
      if !Near(frame.w, slot.w) || !Near(frame.h, slot.h) {
        return false;
      }
      FreeIsIdle(slots[..], width, height, user, held, releases);
      RecordWritten(log, slots[..], user, held, releases, idx);
      Appended(log, Written(slot.buf));
      log := log + [Written(slot.buf)];
      ghost var before := slot.pixels[..];
      var blitW := if frame.w < slot.w then frame.w else slot.w;
      var blitH := if frame.h < slot.h then frame.h else slot.h;
      BlitInto(frame.pixels, frame.w, frame.h, slot.pixels, slot.w, slot.h, blitW, blitH);
      PlacedIsShown(before, slot.pixels[..], frame, slot.w, slot.h);
      AttachAndCommit(idx);
      ok := true;
    }
  }
}
