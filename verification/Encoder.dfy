/** The encoder thread: the x264 backend with its persistent YUV frame, and one turn
    of the loop that feeds it. */
module Encoder {
  import opened Image
  import opened Options
  import opened Convert
  import opened Frames

  datatype RateControl = Bitrate(bps: nat) | Quality(crf: nat)

  datatype Control = ForceKeyframe | ChangeBitrate(bps: nat)

  function Buffers(fs: seq<Frame>): seq<nat> {
    seq(|fs|, i requires 0 <= i < |fs| => fs[i].buf)
  }

  lemma OneNewer(first: Frame, rest: seq<Frame>)
    requires rest != []
    ensures NewestOf(first, rest) == NewestOf(TakeOver(first, rest[0]), rest[1..])
  {
  }

  lemma NoneNewer(first: Frame)
    ensures NewestOf(first, []) == first
  {
  }

  lemma WholeBuffer(f: Frame)
    requires FrameOk(f)
    ensures |f.data| == Bytes(f.w, f.h) && Viewed(f, f.w, f.h) == f
  {
  }

  lemma SamePictureRows(a: Frame, b: Frame)
    requires FrameOk(a) && SamePicture(a, b)
    ensures FrameOk(b) && Rows(a) == Rows(b)
  {
  }

  lemma FirstBuffers(fs: seq<Frame>, k: nat)
    requires k < |fs|
    ensures |Buffers(fs)| == |fs| && Buffers(fs)[..k + 1] == Buffers(fs)[..k] + [fs[k].buf]
    ensures k + 1 == |fs| ==> Buffers(fs)[..k + 1] == Buffers(fs)
  {
  }

  function NewRate(rate: RateControl, m: Control): RateControl {
    if m.ChangeBitrate? && rate.Bitrate? then Bitrate(m.bps) else rate
  }

  /** The rate after a sequence of control messages. */
  function RateAfter(rate: RateControl, control: seq<Control>): RateControl {
    if control == [] then rate else NewRate(RateAfter(rate, control[..|control| - 1]), control[|control| - 1])
  }

  /** Message `k` asks for a rate other than the current one. */
  predicate Changes(rate: RateControl, control: seq<Control>, k: nat)
    requires k < |control|
  {
    control[k].ChangeBitrate? && RateAfter(rate, control[..k]).Bitrate? && RateAfter(rate, control[..k]) != Bitrate(control[k].bps)
  }

  /** In bitrate mode the last rate asked for counts; in quality mode none does. */
  lemma {:induction false} LastRateCounts(rate: RateControl, control: seq<Control>, k: nat)
    requires k < |control| && control[k].ChangeBitrate? && forall j | k < j < |control| :: !control[j].ChangeBitrate?
    ensures RateAfter(rate, control) == if rate.Bitrate? then Bitrate(control[k].bps) else rate
  {
    var n := |control| - 1;
    RateKeepsMode(rate, control[..n]);
    if k < n {
      LastRateCounts(rate, control[..n], k);
    }
  }

  lemma {:induction false} RateKeepsMode(rate: RateControl, control: seq<Control>)
    ensures RateAfter(rate, control).Bitrate? == rate.Bitrate?
    ensures rate.Quality? ==> RateAfter(rate, control) == rate
  {
    if control != [] {
      RateKeepsMode(rate, control[..|control| - 1]);
    }
  }

  class X264Encoder {
    var width: nat
    var height: nat
    var rateControl: RateControl
    var frameCount: nat
    var yuv: YuvFrame
    /** Set while `yuv` cannot be trusted to hold the previous frame. */
    var needsFullConvert: bool
    /** The last picture handed to libx264 was tagged as a keyframe. */
    var keyframe: bool

    ghost predicate Valid()
      reads this
    {
      yuv.Valid() && yuv.height == height
    }

    constructor (width: nat, height: nat, rateControl: RateControl)
      ensures Valid() && needsFullConvert && fresh(yuv) && fresh(yuv.luma) && fresh(yuv.u) && fresh(yuv.v)
      ensures this.width == width && this.height == height && this.rateControl == rateControl && frameCount == 0 && !keyframe
    {
      this.width, this.height, this.rateControl := width, height, rateControl;
      frameCount, needsFullConvert, keyframe := 0, true, false;
      yuv := new YuvFrame(height);
    }

    /** Converts the frame into the persistent YUV frame and hands it to libx264;
        `sent` says whether that accepted it. A buffer too short for the configured
        size is refused before anything is converted; otherwise its first bytes are read
        as a picture of that size, whatever size the frame says it has. Only the band
        conversion, which clamps to the frame's height, needs that to be the encoder's. */
    method Submit(cv: Converter, frame: Frame, force: bool, sent: bool) returns (ok: bool)
      requires Valid() && (needsFullConvert || force || frame.damage == [] || frame.h == height)
      modifies this`needsFullConvert, this`frameCount, this`keyframe, yuv.luma, yuv.u, yuv.v
      ensures Valid()
      ensures ok <==> Bytes(width, height) <= |frame.data| && sent
      ensures needsFullConvert == (old(needsFullConvert) && !ok)
      ensures frameCount == old(frameCount) + if ok then 1 else 0
      ensures keyframe == if |frame.data| < Bytes(width, height) then old(keyframe) else force
      ensures if |frame.data| < Bytes(width, height) then yuv.Contents() == old(yuv.Contents())
              else Converted(cv, old(yuv.Contents()), Viewed(frame, width, height), old(needsFullConvert) || force, yuv.Contents())
    {
      var expectedLen := width * height * 4;
      if |frame.data| < expectedLen {
        return false;
      }
      var input := Rows(Viewed(frame, width, height));
      if needsFullConvert || force || frame.damage == [] {
        yuv.ConvertAll(cv, input);
      } else {
        yuv.ConvertDamagedRows(cv, input, frame.damage);
      }
      keyframe := force;
      ok := sent;
      if ok {
        needsFullConvert := false;
        frameCount := frameCount + 1;
      }
    }

    /** `opens` says whether encoder and scaler open at the new size. If not, the new
        size is recorded but the YUV frame is still the old one. */
    method Reinitialize(w: nat, h: nat, opens: bool) returns (ok: bool)
      modifies this
      ensures ok == opens && width == w && height == h && rateControl == old(rateControl)
      ensures if ok then Valid() && needsFullConvert && frameCount == 0 && fresh(yuv) && fresh(yuv.luma) && fresh(yuv.u) && fresh(yuv.v)
              else yuv == old(yuv) && needsFullConvert == old(needsFullConvert) && frameCount == old(frameCount)
    {
      width, height := w, h;
      if !opens {
        return false;
      }
      yuv := new YuvFrame(h);
      frameCount := 0;
      needsFullConvert := true;
      ok := true;
    }

    /** `opens` says whether libx264 opens with the new rate. The YUV frame survives
        a rebuild. */
    method ChangeBitrate(bps: nat, opens: bool) returns (changed: bool)
      modifies this`rateControl, this`frameCount
      ensures changed <==> old(rateControl).Bitrate? && old(rateControl) != Bitrate(bps) && opens
      ensures rateControl == if old(rateControl).Bitrate? then Bitrate(bps) else old(rateControl)
      ensures frameCount == if changed then 0 else old(frameCount)
    {
      if rateControl == Bitrate(bps) {
        return false;
      }
      if !rateControl.Bitrate? {
        return false;
      }
      rateControl := Bitrate(bps);
      if opens {
        frameCount := 0;
      }
      changed := opens;
    }
  }

  /** The loop's state: its backend, what waits in its channels, and the buffers it
      has handed back. `shown` is the frame whose conversion the YUV frame holds. */
  class EncoderThread {
    const cv: Converter
    var encoder: X264Encoder
    var frames: seq<Frame>
    var control: seq<Control>
    var resize: Option<(nat, nat)>
    var returned: seq<nat>
    var forceKeyframe: bool
    ghost var shown: Frame

    ghost predicate Coherent()
      reads this, encoder, encoder.yuv.luma, encoder.yuv.u, encoder.yuv.v
    {
      && encoder.Valid()
      && (!encoder.needsFullConvert ==>
            && FrameOk(shown) && shown.w == encoder.width && shown.h == encoder.height
            && encoder.yuv.Contents() == FullConvert(cv, Rows(shown)))
    }

    /** The YUV frame and the queued frames form one chain of links. */
    ghost predicate Valid()
      reads this, encoder, encoder.yuv.luma, encoder.yuv.u, encoder.yuv.v
    {
      && Coherent()
      && (forall i | 0 <= i < |frames| :: FrameOk(frames[i]))
      && Linked(frames)
      && (!encoder.needsFullConvert && frames != [] ==> Link(shown, frames[0]))
    }

    constructor (cv: Converter, w: nat, h: nat, rateControl: RateControl)
      ensures Valid() && frames == [] && control == [] && resize == None && returned == [] && !forceKeyframe
      ensures encoder.width == w && encoder.height == h && encoder.needsFullConvert
    {
      this.cv := cv;
      encoder := new X264Encoder(w, h, rateControl);
      frames, control, resize, returned, forceKeyframe := [], [], None, [], false;
    }

    /** Applies every waiting control message; `opens(k)` says whether libx264 opens
        with the rate the k-th of them asks for. */
    method DrainControlMessages(opens: nat -> bool)
      modifies this`control, this`forceKeyframe, encoder`rateControl, encoder`frameCount
      ensures control == []
      ensures forceKeyframe <==> old(forceKeyframe) || ForceKeyframe in old(control)
      ensures encoder.rateControl == RateAfter(old(encoder.rateControl), old(control))
      ensures encoder.frameCount ==
              if exists k :: 0 <= k < |old(control)| && Changes(old(encoder.rateControl), old(control), k) && opens(k) then 0
              else old(encoder.frameCount)
    {
      ghost var was, rate := control, encoder.rateControl;
      var n := 0;
      while control != []
        invariant encoder == old(encoder)
        invariant n <= |was| && control == was[n..]
        invariant forceKeyframe <==> old(forceKeyframe) || ForceKeyframe in was[..n]
        invariant encoder.rateControl == RateAfter(rate, was[..n])
        invariant encoder.frameCount ==
                  if exists k :: 0 <= k < n && Changes(rate, was, k) && opens(k) then 0 else old(encoder.frameCount)
        decreases |control|
      {
        assert was[..n + 1] == was[..n] + [was[n]];
        var message := control[0];
        control := control[1..];
        match message {
          case ForceKeyframe => forceKeyframe := true;
          case ChangeBitrate(bps) => var _ := encoder.ChangeBitrate(bps, opens(n));
        }
        n := n + 1;
      }
      assert was[..|was|] == was;
    }

    /** Drains the queue to the freshest frame, returning every skipped buffer once,
        in order. */
    method SkipToNewestFrame(first: Frame) returns (newest: Frame, skipped: nat)
      modifies this`frames, this`returned
      ensures frames == [] && skipped == |old(frames)|
      ensures newest == NewestOf(first, old(frames))
      ensures returned + [newest.buf] == old(returned) + Buffers([first] + old(frames))
    {
      hide Buffers, NewestOf;
      ghost var was, all := frames, [first] + frames;
      FirstBuffers(all, 0);
      newest, skipped := first, 0;
      while frames != []
        invariant skipped <= |was| && frames == was[skipped..]
        invariant NewestOf(newest, frames) == NewestOf(first, was)
        invariant newest.buf == all[skipped].buf
        invariant returned == old(returned) + Buffers(all)[..skipped]
        decreases |frames|
      {
        OneNewer(newest, frames);
        var newer := frames[0];
        frames := frames[1..];
        var stale := newest;
        newest := newer;
        if newest.damage == [] || stale.damage == [] {
          newest := newest.(damage := []);
        } else {
          newest := newest.(damage := newest.damage + stale.damage);
        }
        FirstBuffers(all, skipped);
        FirstBuffers(all, skipped + 1);
        returned := returned + [stale.buf];
        skipped := skipped + 1;
      }
      FirstBuffers(all, skipped);
      NoneNewer(newest);
    }

    /** The resize check: frames of the old size are dropped, their buffers returned.
        An encoder that does not open ends the thread. */
    method SeeResize(opens: bool) returns (ok: bool)
      requires Valid()
      modifies this`frames, this`returned, this`resize, encoder
      ensures ok <==> old(resize).None? || opens
      ensures resize == None && encoder == old(encoder) && (ok ==> Valid())
      ensures encoder.yuv == old(encoder.yuv) || (fresh(encoder.yuv) && fresh(encoder.yuv.luma) && fresh(encoder.yuv.u) && fresh(encoder.yuv.v))
      ensures match old(resize)
              case None => unchanged(encoder) && frames == old(frames) && returned == old(returned)
              case Some(size) =>
                && frames == [] && returned == old(returned) + Buffers(old(frames))
                && encoder.width == size.0 && encoder.height == size.1 && (ok ==> encoder.needsFullConvert)
    {
      ok := true;
      match resize {
        case None =>
        case Some(size) =>
          ghost var was := frames;
          while frames != []
            modifies this`frames, this`returned
            invariant |frames| <= |was| && frames == was[|was| - |frames|..]
            invariant returned == old(returned) + Buffers(was)[..|was| - |frames|]
            decreases |frames|
          {
            assert Buffers(was)[..|was| - |frames| + 1] == Buffers(was)[..|was| - |frames|] + [frames[0].buf];
            returned := returned + [frames[0].buf];
            frames := frames[1..];
          }
          assert Buffers(was)[..|was|] == Buffers(was);
          ok := encoder.Reinitialize(size.0, size.1, opens);
          resize := None;
      }
    }

    /** Fits the backend to the frame's size, applies late control messages and
        submits: the YUV frame becomes the frame's full conversion. An encoder that
        does not open at that size ends the thread, the frame's buffer returned. */
    method EncodeNewest(newest: Frame, refits: bool, opens: nat -> bool, sent: bool) returns (ok: bool, forced: bool)
      requires Coherent() && FrameOk(newest) && (!encoder.needsFullConvert ==> Link(shown, newest))
      modifies this`control, this`forceKeyframe, this`returned, this`shown, encoder, encoder.yuv.luma, encoder.yuv.u, encoder.yuv.v
      ensures returned == old(returned) + [newest.buf]
      ensures var refit := newest.w != old(encoder.width) || newest.h != old(encoder.height);
              && (ok <==> !refit || refits)
              && (ok ==> encoder.needsFullConvert == ((old(encoder.needsFullConvert) || refit) && !sent))
      ensures ok ==>
                && Coherent() && control == [] && !forceKeyframe
                && shown == newest && encoder.width == newest.w && encoder.height == newest.h
                && encoder.yuv.Contents() == FullConvert(cv, Rows(newest))
                && (forced <==> old(forceKeyframe) || ForceKeyframe in old(control)) && encoder.keyframe == forced
                && encoder.rateControl == RateAfter(old(encoder.rateControl), old(control))
      ensures ok && newest.w == old(encoder.width) && newest.h == old(encoder.height) ==>
                Converted(cv, old(encoder.yuv.Contents()), newest, old(encoder.needsFullConvert) || forced, encoder.yuv.Contents())
      ensures !ok ==> control == old(control) && forceKeyframe == old(forceKeyframe) && shown == old(shown)
    {
      hide FullConvert, Converted, Link, Rows, RateAfter, FrameOk;
      ok, forced := true, false;
      if newest.w != encoder.width || newest.h != encoder.height {
        ok := encoder.Reinitialize(newest.w, newest.h, refits);
        if !ok {
          returned := returned + [newest.buf];
          return;
        }
      }
      forced := SubmitFitted(newest, opens, sent);
    }

    /** The frame has the encoder's size: late control messages, then its submission. */
    method SubmitFitted(newest: Frame, opens: nat -> bool, sent: bool) returns (forced: bool)
      requires Coherent() && FrameOk(newest) && newest.w == encoder.width && newest.h == encoder.height
      requires !encoder.needsFullConvert ==> Link(shown, newest)
      modifies this`control, this`forceKeyframe, this`returned, this`shown, encoder, encoder.yuv.luma, encoder.yuv.u, encoder.yuv.v
      ensures Coherent() && control == [] && !forceKeyframe && shown == newest && returned == old(returned) + [newest.buf]
      ensures encoder == old(encoder) && encoder.width == newest.w && encoder.height == newest.h
      ensures encoder.yuv.Contents() == FullConvert(cv, Rows(newest))
      ensures forced <==> old(forceKeyframe) || ForceKeyframe in old(control)
      ensures encoder.keyframe == forced
      ensures encoder.needsFullConvert == (old(encoder.needsFullConvert) && !sent)
      ensures encoder.rateControl == RateAfter(old(encoder.rateControl), old(control))
      ensures Converted(cv, old(encoder.yuv.Contents()), newest, old(encoder.needsFullConvert) || forced, encoder.yuv.Contents())
    {
      hide FullConvert, Link, Rows, RateAfter;
      DrainControlMessages(opens);
      forced := forceKeyframe;
      if forced {
        forceKeyframe := false;
      }
      ghost var base, before, full := shown, encoder.yuv.Contents(), encoder.needsFullConvert || forced;
      ghost var trusted := !encoder.needsFullConvert;
      var _ := encoder.Submit(cv, newest, forced, sent);
      WholeBuffer(newest);
      if trusted {
        ConvertedIsFull(cv, base, before, newest, full, encoder.yuv.Contents());
      }
      returned := returned + [newest.buf];
      shown := newest;
    }

    /** Receives a frame and skips to the newest: it is linked to what the YUV frame
        shows, and every other buffer is on its way back. */
    method ReceiveNewest() returns (newest: Frame)
      requires Valid() && frames != []
      modifies this`frames, this`returned
      ensures Coherent() && frames == [] && FrameOk(newest) && newest == NewestOf(old(frames)[0], old(frames)[1..])
      ensures var last := old(frames)[|old(frames)| - 1]; SamePicture(newest, last) && Rows(newest) == Rows(last)
      ensures returned + [newest.buf] == old(returned) + Buffers(old(frames))
      ensures !encoder.needsFullConvert ==> Link(shown, newest)
    {
      hide FullConvert, Link, Linked, Sized, Rows, FrameOk, NewestOf;
      ghost var was := frames;
      var first := frames[0];
      frames := frames[1..];
      assert [first] + frames == was;
      var skipped;
      newest, skipped := SkipToNewestFrame(first);
      NewestIsLast(first, was[1..]);
      SamePictureRows(was[|was| - 1], newest);
      if !encoder.needsFullConvert {
        NewestLinks(shown, first, was[1..]);
      }
    }

    /** From receiving a frame to submitting it: whatever was skipped, resized or
        forced on the way, the YUV frame ends up as the full conversion of the newest
        queued frame, at that frame's size. */
    method EncodeNext(refits: bool, opens: nat -> bool, sent: bool) returns (ok: bool, forced: bool)
      requires Valid() && frames != []
      modifies this, encoder, encoder.yuv.luma, encoder.yuv.u, encoder.yuv.v
      ensures encoder == old(encoder) && frames == [] && returned == old(returned) + Buffers(old(frames)) && resize == old(resize)
      ensures var last := old(frames)[|old(frames)| - 1];
              && (ok <==> (last.w == old(encoder.width) && last.h == old(encoder.height)) || refits)
              && (ok ==> Valid() && SamePicture(shown, last) && encoder.width == last.w && encoder.height == last.h
                         && encoder.yuv.Contents() == FullConvert(cv, Rows(last)))
      ensures ok ==>
                && control == [] && !forceKeyframe && (forced <==> old(forceKeyframe) || ForceKeyframe in old(control))
                && encoder.keyframe == forced
                && shown == NewestOf(old(frames)[0], old(frames)[1..])
      ensures var refit := shown.w != old(encoder.width) || shown.h != old(encoder.height);
              ok ==>
                && encoder.needsFullConvert == ((old(encoder.needsFullConvert) || refit) && !sent)
                && (!refit ==> Converted(cv, old(encoder.yuv.Contents()), shown, old(encoder.needsFullConvert) || forced, encoder.yuv.Contents()))
    {
      assert Linked([]);
      hide FullConvert, Converted, Link, Linked, Sized, Rows, FrameOk, NewestOf, RateAfter, Buffers;
      var newest := ReceiveNewest();
      ok, forced := EncodeNewest(newest, refits, opens, sent);
    }
  }
}
