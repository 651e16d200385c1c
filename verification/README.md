# Proofs about a Wayland-to-browser streaming server

The server composites Wayland windows in software, converts the picture to
YUV and feeds it to libx264; a browser or a native client shows the stream and
sends input back. To save work, two pictures are kept between frames and only
patched where something changed: the compositor's BGRA canvas and the encoder's
YUV frame. The first and largest part of this project proves that the patching
is exact, and that what is reported or asked for arrives, however the two threads interleave. Four smaller parts prove the
single-client takeover protocol, the adaptive bitrate controller, the native
client's shared-memory buffers and the on-screen keyboard's edit scripts.

## Layout

| file | what it holds |
|---|---|
| Image, Options, Numbers | flat BGRA pictures as rows and pixels; the option type; minimum and maximum |
| Compose | the pixel loops on byte arrays, and the picture a scene stands for |
| Damage | the bounded damage set, clips, bands, what one render does |
| Compositor, Reports | `CompositorState` with its canvas and damage; what a window's commit reports |
| Convert | full and banded conversion, `YuvFrame` |
| Frames | captured frames, the link between neighbours, skipping |
| Encoder | `X264Encoder` and `EncoderThread` |
| Pipeline, PipelineProof, PipelineTheorems | both threads as interleaved steps; the invariant; results over all runs |
| PipelineDelivery | reported rows reach a queued frame, keyframe requests a forced submission |
| PipelineSettles | runs the two threads can make by themselves: to a quiet state, to a stall, to the bound on buffers |
| EncoderTurn | a turn of `EncoderThread`, a run of the pipeline machine |
| Pacing, CaptureLoop | the capture loop's deadlines; `RenderLoop`, whose channel operations are steps of the machine |
| Takeover | the generation counter and watch channel |
| Bitrate | the AIMD algorithm and its coalescing controller |
| ShmSlots, ShmHistory, ShmRendering, Display | buffer slots, the history of their buffers, `ShmRenderer`, the display loop |
| UsLayout, SoftKeyboard | key presses and what they mean remotely; the mirrored field |

## How it fits together

**Pictures.** `ScenePixel` says what each output pixel of a scene should be:
topmost window first, black behind, the root weave with no window;
`ShmWindowShows`, `SinglePixelShows`, `HiddenWindowShows` and `EmptySceneShows` say so in terms of
bytes and positions. The four
pixel loops are proved on arrays to paint one layer inside one clip and nothing
else, `ComposeClips` composes them over any list of clips, and `ComposedIsRedraw`
makes that a full redraw inside the clips. A canvas is *truthful* when it agrees
with the scene outside the damage. Mapping, unmapping and resizing make it so;
`Render` turns a truthful canvas into a full redraw; a commit keeps it so exactly
if it changes the picture only inside the damage it leaves.

**Links.** Frame *b* is linked to frame *a* (`Link`) when it reports no damage
list at all, or has the size of *a* and its rows wherever it reports no band. The
pipeline invariant is a chain: the frame the YUV picture was converted from (if
it can be trusted), frames the encoder thread holds, queued frames, each linked
to the one before, and then the canvas, which differs from the last accepted
frame only in damaged rows. None of this asks anything of clients: commits may
report what they like, buffers have any stride, and what a render paints inside
the damage is arbitrary. Only what the canvas has to do with the scene
(`Truthful`) rests on honest commits (`Honest`). Dropped
frames extend the damage, skipped frames hand theirs on, resizes and reallocations
withdraw the trust. `BandedIsFull` then says that patching is converting.

**Colour** is a parameter: a luma row is some function of one picture row, a
chroma row of a pair of rows, so the results hold for every conversion matrix.

**Threads.** `Pipeline` interleaves the capture loop with the encoder thread, at
most one channel operation a step. A tick is several: looking for buffers to
recycle one by one, asking for a keyframe, rendering, offering the frame. The
encoder thread may move between any two, and between its last look at the control
queue and its submission so may everyone else. `CaptureLoop` and `Encoder` are the
same code as classes with loops: each channel operation of `RenderLoop` is proved to
be one step of the machine in whatever state it finds the channels, an uninterrupted
tick and an uninterrupted turn of `EncoderThread` to be runs of such steps; the
interleavings are the machine's.

**Shared memory.** The history of a native client's buffers (`Wire` events) has both
sides: the client creates, writes, commits and destroys, the compositor lets go, and
some time later the client is told. `Orderly` is what the protocol asks for,
`UntouchedWhileInUse` what that means; every method of `ShmRenderer` extends an
orderly history, and the display loop runs against a compositor that lets go of
buffers whenever it likes. A buffer let go between two dispatches is one let go
before the second, since the client cannot see the difference.

## Where the code and its description differ

- *Full damage is not always alone.* The comments say a full-output rectangle
  supersedes everything. After a resize to a size that the first rectangle
  already happens to have, the short-cut keeps that rectangle and the others
  (`ResizeBounded` has the exact condition, `ResizeCanKeepStaleRects` an
  instance). Nothing is lost, since the first rectangle covers the output.
- *A resize can discard a frame of the new size and then wait.* The comments say that
  whatever is queued when the encoder thread sees a resize has the old size. The
  capture loop may have queued a frame of the new size by then. It is dropped with the
  rest, its damage is not marked again, and the encoder waits with a YUV picture it
  cannot trust until the next damage or a new client (`ResizeCanStall`,
  `StalledNeedsForce`). What is submitted stays exact.
- *The periodic deadline drifts ahead.* Every early tick adds an interval to the
  deadline, also when its frame is dropped, so a full queue pushes the
  deadline arbitrarily far (`DropsPushDeadline`); it counts ticks exactly until one
  resynchronises (`DeadlineCountsTicks`); one tick leaves it within an
  interval exactly when the tick was due (`DeadlineWithinInterval`).
- *The starting bitrate is not checked.* Start-up compares only floor and
  ceiling. With a starting rate outside them the first growth tick lowers the
  rate or the first cut raises it (`WrongWayIffOutside`), and the controller's
  invariant holds at the start exactly when the rate lies between them.
- *A late first configure is lost on the native client.* The first configure sets
  the window size without asking for a resize. If it arrives after the renderer
  exists, with another size, every commit keeps the old size until the next
  change (`RendererHasWindowSizeIff` for all runs, `LateConfigureCommitsOldSize` for
  a commit of the wrong size).
- *Single-pixel buffers are under-reported.* They are painted to the edge of the
  output, but a commit reports one pixel; `RecolouringIsReportedIff` says exactly when
  that is enough, `CommitIsSoundIff` what a commit must satisfy in general.
- *A buffer that shrinks is under-reported.* A commit reports the damage of the new buffer;
  what a smaller one uncovers goes unreported (`ShrinkingIsMisreported`). So would changes of a
  window left of or above the output, which is drawn at the edge and reported beyond it
  (`EveryCommitIsToldIff`). At (0, 0), where windows are mapped, `ReportIsEnough` covers every
  buffer that does not shrink.
- *The compositor does not check strides.* With rows that overlap in memory, a narrow repaint shows
  pixels that a wide one refuses (`EdgeBlindIff`, `ShortStrideShows`).
- *`RawFrame.damage`* is documented as relative to the previous encoded frame. It
  is relative to the previous accepted one; skipping makes up the difference.
- *A bitrate change that fails to open* is still recorded as the current rate, so
  asking for the same rate again does nothing (`X264Encoder.ChangeBitrate`).
- *Characters without a key* are dropped by the keyboard but counted by its
  diff, in UTF-16 units: taking one back erases a character that was there before,
  or two for an emoji (`UnmappedEatsText`). A flush keeps both sides equal exactly
  when every added character has a key (`FlushKeepsSync`).

## Model

| member | source | states |
|---|---|---|
| PipelineTheorems.EverySubmissionIsExact | src/encoder/mod.rs:1001-1011 | Over all interleavings and any commits and buffers whatever: each submitted frame has the encoder's size, and the YUV picture handed to libx264 is the full conversion of that frame |
| PipelineTheorems.BandsNeedABase | src/encoder/mod.rs:563-588 | A YUV picture is patched only over the exact conversion of an earlier frame of the same size, linked to the new one; after a reallocation the first conversion is full |
| PipelineTheorems.QuietMeansCurrent | src/compositor/state.rs:747-776 | In every reachable state with no frame in anyone's hands, no damage and no full conversion due, the YUV picture is the conversion of the canvas at the current size, and the canvas is the redraw of the current scene exactly if it is truthful |
| PipelineTheorems.DifferenceIsMarked | src/main.rs:813-824 | In every reachable state each canvas row that differs from the frame last accepted is damaged, or reported by a frame about to be offered |
| PipelineTheorems.DropStaysDirty | src/main.rs:811-824 | A frame dropped on a full queue leaves every row it reported damaged, and so the state dirty; the queue and the last accepted frame are untouched |
| PipelineTheorems.QueuedFramesAreRedraws | src/main.rs:800-809 | Every frame queued is the canvas as last rendered, and the redraw of the scene at that moment exactly if the canvas is truthful |
| PipelineTheorems.AdvanceConserves | src/encoder/mod.rs:383-389 | Each step of the encoder thread moves frame buffers and neither duplicates nor loses one |
| PipelineTheorems.RecycleConserves | src/main.rs:772-774 | Recycling a buffer moves it to the spare ones |
| PipelineTheorems.DrawConserves | src/main.rs:802-804 | A render takes a spare buffer or, with none left, allocates one |
| PipelineTheorems.OfferConserves | src/main.rs:806-829 | An offered frame's buffer is queued or, with the queue full, freed |
| PipelineTheorems.NextBuffers | src/encoder/mod.rs:516-539 | Every step of either thread keeps each buffer in at most one place and the bound, which rests on a tick having found nothing to recycle before it may allocate |
| PipelineTheorems.BuffersBounded | src/main.rs:802-835 | In every state of every run each buffer is in at most one of spare list, capture loop, return channel, queue and encoder thread, and at most queue capacity plus three are alive |
| PipelineTheorems.LookedBefore | src/encoder/mod.rs:648-665 | Every submission follows a last look at the empty control queue, with nothing received in between |
| PipelineTheorems.SubmissionServesAllAsks | src/encoder/mod.rs:640-665 | A submission honours exactly the keyframe requests queued before that look, among them all queued before its own frame; pending requests merge into one forced frame, which is converted in full |
| PipelineTheorems.ServedOnlyBySubmission | src/encoder/mod.rs:485-501 | Only a submission uses up requests, so none is served twice or lost between submissions |
| PipelineTheorems.RequestsBeforeAFrameAreServed | src/encoder/mod.rs:485-541 | Over all runs: every keyframe request queued before a frame was queued is served by the first submission of that frame or any later one, whether the frame itself is submitted, skipped or dropped for a resize |
| PipelineTheorems.StaysSince | src/encoder/mod.rs:512-607 | The frames on their way that were queued from some moment on carry, through skipping, refitting and waiting, at least the requests queued by then |
| PipelineTheorems.NextKeys | src/encoder/mod.rs:485-501 | Requests queued, received and served stay in order across every step, and the force flag is set exactly while one is received and unserved |
| PipelineTheorems.RunKeys | src/encoder/mod.rs:556-659 | The keyframe counters' invariant over all runs |
| PipelineDelivery.CommitMarks | src/compositor/state.rs:1885-1897 | A commit leaves every output row dirty that its report touches, or that was dirty before, and so the damage not empty |
| PipelineDelivery.OrdinaryCommitIsHonest | src/compositor/state.rs:683-722 | A commit by a window not left of or above the output, whose new buffer covers the old one and differs only where damaged, meets with its own report the premise of TruthKept |
| PipelineDelivery.OwedStays | src/main.rs:764-838 | A row the next queued frame must report stays so across every step that queues none, dropped frames, renders and resizes included |
| PipelineDelivery.ReportIsQueued | src/main.rs:764-829 | Over all runs: a row that a commit reports is among the bands of the first frame queued after it, whatever is dropped or resized before |
| PipelineDelivery.DueIsAsked | src/main.rs:790-801 | A due keyframe, one a client asks for, or a new rate is queued behind everything in the control queue if there is room; otherwise nothing is |
| PipelineDelivery.QueuedFrameCarriesAsks | src/main.rs:790-829 | Every frame queued later carries that request, and all others queued by then |
| PipelineDelivery.ServedMeansForced | src/encoder/mod.rs:640-665 | Each step that serves requests submits exactly one forced keyframe, and serving never goes back |
| PipelineDelivery.DueKeyframeIsForced | src/main.rs:790-829 | Over all runs: from a due tick or a client's request, with room in the control queue, a forced keyframe has been submitted by the first submission of any frame queued after it |
| PipelineSettles.QuietIsReachable | src/main.rs:764-838 | From every reachable state the two threads alone, with one tick forced by a new client, reach a quiet state, so the premise of QuietMeansCurrent can always be met; scene and size unchanged, a truthful canvas still truthful if no buffer's rows overlap |
| PipelineSettles.EmptyQueue | src/encoder/mod.rs:558-688 | From every invariant state the encoder thread by itself finishes what it holds and what is queued, and waits for a frame |
| PipelineSettles.ServeQueue | src/encoder/mod.rs:590-688 | From a queue with frames in it the encoder thread gets to the submission of the newest, and to a YUV picture that can be trusted |
| PipelineSettles.ForcedTick | src/main.rs:769-838 | From between ticks a tick forced by a new client queues a frame, or drops it on a full queue |
| PipelineSettles.ResizeCanStall | src/encoder/mod.rs:563-585 | From start-up a resize to any size, a tick, and the encoder thread that then drops that frame of the new size: nothing is left to render or to receive while a full conversion is due |
| PipelineSettles.StalledNeedsForce | src/main.rs:769-789 | In such a state nothing the two threads do changes it, unless a new client forces a render |
| PipelineSettles.SevenIsReached | src/main.rs:772-804 | From start-up, for any size, the two threads can get to a state between ticks with queue capacity plus three buffers alive: the bound is reached |
| PipelineProof.NextInv | src/encoder/mod.rs:556-660 | Every step of either thread, and any commit, keeps the damage set's shape, the chain of links, the rows unsent marked and the YUV picture's meaning |
| PipelineProof.RunInv | src/encoder/mod.rs:544-660 | The invariant over all runs from start-up |
| PipelineProof.InitInv | src/encoder/mod.rs:339-347 | Start-up establishes the invariant: full damage, no trusted YUV picture |
| PipelineProof.StartIsTruthful | src/compositor/state.rs:540-548 | At start-up the canvas agrees with the scene outside the damage, which is everything |
| PipelineProof.CommitKeeps | src/compositor/state.rs:1881-1897 | Any commit, truthful or not, keeps the last accepted frame right outside the damaged rows, for it changes no pixel of the canvas |
| PipelineProof.FullDamageKeeps | src/compositor/state.rs:735-738 | So do mapping, unmapping and resizing, by damaging the whole output |
| PipelineProof.DrawCarries | src/compositor/state.rs:776-814 | A rendered frame is the canvas and differs from the frame accepted before it only in the bands it reports |
| PipelineProof.CarriedLinks | src/compositor/state.rs:803-814 | So it is linked to that frame |
| PipelineProof.DropKeepsBehind | src/compositor/state.rs:631-641 | After a drop, every row the canvas has and the encoder was never sent is damaged again |
| PipelineProof.DrawKeeps | src/main.rs:802-804 | Rendering keeps the invariant, the frame now in the capture loop's hand |
| PipelineProof.OfferKeeps | src/main.rs:806-829 | Queueing or dropping that frame keeps it, whatever the encoder thread did in between |
| PipelineProof.AcceptKeepsChain | src/main.rs:804-809 | A frame accepted extends the chain of links |
| PipelineProof.AdvanceKeepsChain | src/encoder/mod.rs:556-640 | Receiving, dropping for a resize, skipping and refitting keep the chain |
| PipelineProof.SwapKeepsChain | src/encoder/mod.rs:519-537 | Replacing the held frame by a newer one keeps the chain |
| PipelineProof.SubmitConvertsInFull | src/encoder/mod.rs:953-1011 | In an invariant state a submission leaves the full conversion, at the frame's size, and the short-buffer refusal cannot happen |
| PipelineProof.FullDamageIsTruthful | src/compositor/state.rs:735-738 | Damaging the whole output makes the canvas agree with the scene outside the damage, whatever went before |
| PipelineProof.CommitIsTruthful | src/compositor/state.rs:1881-1897 | A commit whose changes lie within the damage it leaves keeps that agreement |
| PipelineProof.TruthKept | src/compositor/state.rs:735-927 | Every step keeps that agreement if commits change only what they damage and renders find separate rows; a resize or a change of the windows restores it without any premise |
| PipelineProof.TruthLasts | src/compositor/state.rs:735-927 | So it lasts from start-up, a resize or a change of the windows along any run of such steps |
| Frames.TakeOverLinks | src/encoder/mod.rs:519-533 | A frame that took over a skipped one's damage is linked to whatever the skipped one was linked to |
| Frames.NewestIsLast | src/encoder/mod.rs:512-541 | Skipping keeps the last frame, in all but its damage |
| Frames.NewestCoversAll | src/encoder/mod.rs:512-541 | Its damage is exactly the union of the damage of all frames skipped and its own, and an empty list anywhere makes it empty |
| Frames.NewestLinks | src/encoder/mod.rs:512-541 | The frame kept is linked to the frame before the first one skipped |
| Frames.ConvertedIsFull | src/encoder/mod.rs:1001-1011 | Converting a linked frame over its predecessor's planes gives its full conversion, in every branch of the choice |
| Convert.BandedIsFull | src/encoder/mod.rs:890-949 | If all rows that differ are damaged, converting only the even-snapped, clamped bands equals converting all three planes in full |
| Convert.SnapCovers | src/encoder/mod.rs:920-922 | A damaged row lies inside its snapped and clamped band, also where the addition saturates |
| Convert.SnapIsTight | src/encoder/mod.rs:920-922 | A snapped band takes in at most one row more at each end, starts at an even row and ends at one or at the last |
| Convert.SnapKeepsPairs | src/encoder/mod.rs:920-922 | A snapped band that holds one row of a chroma pair converts that chroma row |
| Convert.UntouchedPair | src/encoder/mod.rs:919-925 | Where no band touches a chroma row, neither of its rows is damaged |
| Convert.SlicePairs | src/encoder/mod.rs:932-945 | Chroma rows counted from an even start pair the same picture rows as in the whole frame, and stay inside the plane |
| Convert.ScaleEffect | src/encoder/mod.rs:926-946 | One scaler call on a band puts exactly the full conversion's rows there and changes no other row |
| Convert.FullConvertAt | src/encoder/mod.rs:890-949 | In the full conversion each luma row comes from the picture row of its number, each chroma row from the two it covers |
| Convert.YuvFrame.Scale | src/encoder/mod.rs:926-946 | The same for the planes in place, every access within its plane |
| Convert.YuvFrame.ConvertAll | src/encoder/mod.rs:1001-1002 | A full conversion leaves nothing of the old planes |
| Convert.YuvFrame.ConvertBand | src/encoder/mod.rs:919-946 | One band, snapped to even rows and clamped, becomes the full conversion's rows; an empty one changes nothing |
| Convert.YuvFrame.ConvertDamagedRows | src/encoder/mod.rs:890-949 | The loop over bands takes touched rows from the full conversion and keeps the others |
| Compose.ClearRegion | src/compositor/state.rs:326-334 | Blacks the clip and nothing else |
| Image.PixelBytes | src/compositor/state.rs:326-382 | Pixels are four bytes, rows packed without padding |
| Compose.BlitBgra | src/compositor/state.rs:343-382 | For any stride and buffer: copies each row that fits up to the clip's right edge, skips the others, and touches nothing else |
| Compose.RowFitsIff | src/compositor/state.rs:371-379 | The copy's bounds check is whether the row fits |
| Compose.ShmWindowShows | src/compositor/state.rs:832-888 | A window's buffer is shown unscaled at its position, or at the output's edge where that is negative: pixel (i, j) is the four bytes at offset + j * stride + 4 * i of the pool |
| Compose.ShmWindowEnds | src/compositor/state.rs:832-888 | Outside that rectangle the windows below show, over black |
| Compose.SinglePixelShows | src/compositor/state.rs:890-911 | A single-pixel window shows its colour, blue first, from its position to the end of the output, and what is below elsewhere |
| Compose.HiddenWindowShows | src/compositor/state.rs:857-911 | A window whose range leaves its pool, or whose buffer cannot be read, shows what is below, black at the bottom |
| Compose.FillSolid | src/compositor/state.rs:384-406 | Paints one colour right of and below the position, inside the clip |
| Compose.RenderRootWeave | src/compositor/state.rs:410-427 | Paints the weave, given by a formula on coordinates, inside the clip |
| Compose.WeaveBit | src/compositor/state.rs:408-427 | The 4x4 bitmap and the formula agree on every bit |
| Compose.EmptySceneShows | src/compositor/state.rs:408-427 | Without windows every pixel of the picture is the bitmap's bit at its place, in white or black |
| Compose.SweepSpan | src/compositor/state.rs:326-427 | Writing a span of whole pixels moves the pen of a sweep and touches no other pixel |
| Compose.DrawWindow | src/compositor/state.rs:834-915 | One window contributes its layer as the clip sees it, the one ShmWindowShows and SinglePixelShows place, or nothing if its pool range is out of bounds or its buffer unreadable |
| Compose.ComposeClip | src/compositor/state.rs:826-926 | Clearing, blitting bottom-up and weaving shows any scene inside the clip, as that clip sees it, and changes nothing outside |
| Compose.ComposeMore | src/compositor/state.rs:826-927 | Where clips overlap, the last one painted counts |
| Compose.ComposeClips | src/compositor/state.rs:826-927 | For any clips and windows: each pixel is as the last clip that holds it paints it, or unchanged |
| Compose.ComposedIsRedraw | src/compositor/state.rs:826-927 | With rows that do not overlap, any clips, overlapping or not and in any order, show the full redraw inside and change nothing outside |
| Compose.EdgeBlindIff | src/compositor/state.rs:343-382 | What a buffer shows is independent of the clip exactly when its rows do not overlap |
| Compose.ShortStrideShows | src/compositor/state.rs:371-379 | A pixel that a narrow clip shows and a wide one does not |
| Damage.AccumulateCovers | src/compositor/state.rs:261-287 | Accumulating damage never loses a damaged output pixel |
| Damage.AccumulateExact | src/compositor/state.rs:261-287 | Short of a collapse it adds exactly the new rectangle's pixels |
| Damage.CollapseIsSmallest | src/compositor/state.rs:280-284 | A collapse yields the smallest rectangle around the set and the newcomer |
| Damage.AccumulateBounded | src/compositor/state.rs:261-287 | It keeps at most eight rectangles, the full output only in front, and alone if it was alone |
| Damage.ResizeBounded | src/compositor/state.rs:724-738 | After a resize the full output is first; alone exactly unless the old set was longer and began with it |
| Damage.ResizeCanKeepStaleRects | src/compositor/state.rs:264-267 | A set that keeps a stale rectangle beside the full output after a resize |
| Damage.ReaddCovers | src/compositor/state.rs:631-641 | Re-marking bands keeps old damage and damages every pixel of every band |
| Damage.ReaddBounded | src/compositor/state.rs:631-641 | It keeps the set's shape and leaves it non-empty if there was a band |
| Damage.ReaddExact | src/compositor/state.rs:631-641 | Up to eight bands re-marked on their own damage exactly their rows |
| Damage.ClipsAreDamage | src/compositor/state.rs:309-323 | The clips of a damage set are non-empty, inside the output and cover exactly its damaged pixels |
| Damage.BandsAreClipRows | src/compositor/state.rs:803-814 | The bands are exactly the rows of the clips |
| Damage.RenderReportsDamage | src/compositor/state.rs:776-814 | A render of recorded damage at an unchanged size reports exactly the rows with damage |
| Damage.RenderIsRedraw | src/compositor/state.rs:776-927 | Where the canvas agreed with the scene outside the damage, repainting the damage, or everything after a size change, gives the full redraw |
| Damage.ComposedIsRepainted | src/compositor/state.rs:776-814 | Whatever the scene and the canvas, a render changes no pixel outside the clips of the damage and reports those clips' rows |
| Damage.RenderKeepsOtherRows | src/compositor/state.rs:803-814 | For any scene, a row outside the reported bands was undamaged, and the canvas row is unchanged |
| Compositor.CommitIsSoundIff | src/compositor/state.rs:1885-1897 | A commit keeps the canvas right outside the damage exactly if the picture changes only inside the damage it leaves |
| Compositor.CommitLeavesReport | src/compositor/state.rs:1885-1897 | A commit's damage has every pixel damaged before and every output pixel reported, and short of a collapse no other; it is not empty after a report |
| Compositor.RecolouringIsReportedIff | src/compositor/state.rs:384-406 | Recolouring a top single-pixel window, reported as one pixel and painted to the edge, stays within its report exactly if it sits in the last corner or off the output |
| Reports.ReportIsEnough | src/compositor/state.rs:683-722 | The bounding box of a buffer's damage, moved to the window, covers all the commit changes on the output, wherever the window is stacked, if it is not left of or above the output and the new buffer covers the old one and differs only where damaged |
| Reports.EveryCommitIsToldIff | src/compositor/state.rs:683-722 | Among all positions, those at which every such commit is reported are exactly the ones not left of or above the output, or off it: elsewhere a window is drawn at the edge and reported beyond it |
| Reports.ShrinkingIsMisreported | src/compositor/state.rs:683-722 | A smaller buffer that reports all of itself leaves a changed pixel unreported |
| Reports.WindowPixel | src/compositor/state.rs:832-888 | The picture of a window on top: its buffer's pixel inside, what is below outside |
| Compositor.FullShows | src/compositor/state.rs:735-738 | Full damage makes no promise, so any change is allowed, a resize to transposed dimensions included |
| Compositor.CompositorState.constructor | src/compositor/state.rs:540-548 | Starts fully damaged, with no canvas |
| Compositor.CompositorState.AddDamage | src/compositor/state.rs:661-664 | In place, with the collapse loop, what the set function says |
| Compositor.CompositorState.Commit | src/compositor/state.rs:1854-1905 | For any commit: every pixel reported or damaged before is damaged, short of a collapse no other; a canvas that agreed with the scene outside the damage still does exactly if the changes lie within the damage left |
| Compositor.CompositorState.ChangeWindows | src/compositor/state.rs:1768-1803 | Any change of the windows to any scene damages everything, after which the canvas agrees with the scene outside the damage |
| Compositor.CompositorState.ResizeOutput | src/compositor/state.rs:724-738 | So does a resize |
| Compositor.CompositorState.TakeDirty | src/compositor/state.rs:614-617 | Moves the damage to the stash; reports whether there was any |
| Compositor.CompositorState.IsDirty | src/compositor/state.rs:650-652 | Whether there is damage, without taking it |
| Compositor.CompositorState.TakeRepaintRects | src/compositor/state.rs:622-624 | Hands out the bands of the last render once |
| Compositor.CompositorState.ReaddDamage | src/compositor/state.rs:631-641 | Re-marks whole bands as damage |
| Compositor.CompositorState.Render | src/compositor/state.rs:776-941 | Repaints the stash and nothing else, for any scene; from a canvas that agreed with the scene outside the damage, and with separate rows, canvas and copy are the full redraw |
| Encoder.X264Encoder.Submit | src/encoder/mod.rs:354-398 | Refuses a buffer too short for the encoder's size; otherwise converts its first bytes, read as a picture of that size, in full or by bands, and tags the picture as a keyframe exactly if forced; clears the full-conversion flag only on success |
| Encoder.X264Encoder.Reinitialize | src/encoder/mod.rs:400-414 | A fresh YUV picture of the new size that must be converted in full, or, if the encoder does not open, the new size recorded over the old picture |
| Encoder.X264Encoder.ChangeBitrate | src/encoder/mod.rs:416-449 | Changes only a bitrate-mode rate; keeps the YUV picture; records the rate even if the encoder does not open |
| Encoder.LastRateCounts | src/encoder/mod.rs:416-449 | In bitrate mode the last rate asked for is the rate afterwards; in quality mode none is |
| Encoder.EncoderThread.DrainControlMessages | src/encoder/mod.rs:485-501 | Empties the queue; the force flag is set exactly if it was or a request was queued; the rate is the last asked for, each reopening succeeding or not on its own |
| Encoder.EncoderThread.SkipToNewestFrame | src/encoder/mod.rs:512-541 | Empties the queue, yields the merged newest frame and returns each skipped buffer once, in order |
| Encoder.EncoderThread.SeeResize | src/encoder/mod.rs:563-588 | A seen resize returns every queued buffer and refits the encoder, or ends the thread if that fails; otherwise nothing changes |
| Encoder.EncoderThread.ReceiveNewest | src/encoder/mod.rs:590-607 | The frame received, merged with what was queued behind it, is linked to what the YUV picture shows |
| Encoder.EncoderThread.SubmitFitted | src/encoder/mod.rs:641-687 | Late control messages and submission of a frame of the encoder's size leave its full conversion, tagged as a keyframe exactly if one was requested |
| Encoder.EncoderThread.EncodeNewest | src/encoder/mod.rs:620-687 | Refit and submission leave the full conversion of the frame; a refit that fails returns its buffer and ends the thread |
| Encoder.EncoderThread.EncodeNext | src/encoder/mod.rs:590-687 | From receipt to submission: the full conversion of the last queued frame, all buffers returned on success and failure, the force flag used up |
| EncoderTurn.SkipPath | src/encoder/mod.rs:512-541 | Skipping is a run of the machine that ends with the merged newest frame and every other buffer returned |
| EncoderTurn.DropPath | src/encoder/mod.rs:574-585 | So is dropping the queue for a resize and reallocating |
| EncoderTurn.DrainPath | src/encoder/mod.rs:485-501 | So is draining the control queue, before the resize check or before a submission |
| EncoderTurn.SubmitPath | src/encoder/mod.rs:590-687 | So is everything from a received frame to its submission |
| EncoderTurn.LoopOnce | src/encoder/mod.rs:558-688 | One uninterrupted turn of the thread's loop, as a class over arrays, is a run of its steps in the machine, unless an encoder fails to open |
| Pacing.DeadlineAhead | src/main.rs:765-769 | From one capture on, each further one has pushed the deadline or the gap by an interval |
| Pacing.CapturesAreSpaced | src/main.rs:765-847 | Any k consecutive accepted captures, k at least two, span at least k - 2 intervals, whatever wake-ups, drops, resyncs and forced renders do |
| Pacing.SpacingIsTight | src/main.rs:765-847 | For every k some run has k consecutive captures spanning exactly k - 2 intervals |
| Pacing.DeadlineWithinInterval | src/main.rs:844-847 | After a tick the deadline is within an interval exactly if the tick was due |
| Pacing.DeadlineAfterTick | src/main.rs:844-847 | After a tick the deadline is not behind the clock: an interval further, or, exactly if the tick was over an interval late, an interval from now |
| Pacing.DeadlineCountsTicks | src/main.rs:844-847 | Over any part of any run the deadline moves by at least an interval per tick, and by exactly that if and only if no tick resynchronised |
| Pacing.DropsPushDeadline | src/main.rs:810-847 | Turns before the deadline, at any times, none of which captures: the deadline ends up exactly an interval further per tick, and every turn with work is a tick |
| CaptureLoop.RenderLoop.constructor | src/main.rs:612-638 | Deadline one interval ahead, last capture one interval back, or now if the clock does not reach that far |
| CaptureLoop.RenderLoop.AdvanceDeadline | src/main.rs:844-847 | One interval on, or resynchronised after a stall |
| CaptureLoop.RenderLoop.RecycleOne | src/main.rs:772-774 | One look at the return channel is one step of the machine |
| CaptureLoop.RenderLoop.TakeWork | src/main.rs:776-789 | With the channel empty, taking the damage and deciding whether to render is one step; cadence and idle count |
| CaptureLoop.RenderLoop.RequestKeyframe | src/main.rs:790-801 | A pending keyframe request is queued behind what is in the control queue, exactly if there is room, and cleared either way, as one step |
| CaptureLoop.RenderLoop.Draw | src/main.rs:802-804 | Rendering into a spare or new buffer is one step; from a truthful canvas and separate rows the frame is the full redraw |
| CaptureLoop.RenderLoop.Offer | src/main.rs:806-835 | Queueing the frame, with the requests so far, or marking its bands as damage again, is one step |
| CaptureLoop.RenderLoop.Tick | src/main.rs:769-838 | An uninterrupted tick is a run of those steps from waiting to waiting; whether the frame was accepted, cadence and idle count; a keyframe pending, or due by the idle count, is requested if there is work and room, and the frame queued carries the request |
| CaptureLoop.SanitizeIsLargest | src/config.rs:154-161 | A sanitised size is the largest even one within request and limit; a request is refused only if none is at least 16 by 16 |
| CaptureLoop.SanitizedFits | src/config.rs:154-161 | It fits the pipeline's arithmetic if the limit does |
| CaptureLoop.RenderLoop.HandleResize | src/main.rs:651-692 | A requested resize is refused without effect or is one resize step of the machine, and the encoder is told the size |
| CaptureLoop.RenderLoop.Turn | src/main.rs:764-848 | A loop turn follows the pacing function and ticks exactly when it says |
| Takeover.StepInv | src/server.rs:486-498 | Every atomic step keeps: an outdated published handler has an unseen change, is about to read the counter, or a newer claimer has not published |
| Takeover.RunInv | src/server.rs:486-498 | That invariant over all interleavings of any number of handlers |
| Takeover.QuietMeansOne | src/server.rs:750-764 | In every reachable quiescent state at most one handler is live, and it holds the highest generation |
| Takeover.NewestIsNeverKicked | src/server.rs:757-764 | The newest handler is never closed by this arm |
| Takeover.StepsProgress | src/server.rs:486-498 | Each protocol step uses up at least one unit of a measure of the work left; a departure adds none |
| Takeover.RunsAreBounded | src/server.rs:486-498 | A run without new connections makes at most as many protocol steps as that measure, departures or not |
| Takeover.QuietIffStuck | src/server.rs:750-764 | A state is quiescent exactly if no protocol step is possible |
| Takeover.NewestSurvives | src/server.rs:757-764 | Along any run of protocol steps the newest handler stays live if it was |
| Takeover.EveryRunSettles | src/server.rs:750-764 | Every run of protocol steps is finite, and where none is possible any more exactly the newest handler is live, if it was |
| Takeover.Settles | src/server.rs:750-764 | From every such state some run of protocol steps reaches quiescence |
| Takeover.WatchValueCanRegress | src/server.rs:488-493 | A reachable state whose watch value is older than the counter, with the newest handler awake: comparing with the counter keeps it open |
| Bitrate.ReactInv | src/adaptive_bitrate.rs:246-302 | Every reaction keeps the target between floor and ceiling; a lowered target is three quarters of the old one, or the floor |
| Bitrate.HandleInv | src/adaptive_bitrate.rs:384-414 | Every event keeps floor <= applied <= target <= ceiling, the target less than one band above, and both equal at the ceiling |
| Bitrate.CutsReachTheEncoder | src/adaptive_bitrate.rs:78-84 | Every lowered target is pushed at once, even if it had drifted above the applied rate |
| Bitrate.CutsGoBelowApplied | src/adaptive_bitrate.rs:246-264 | Three quarters of any target inside the band is at most the applied rate |
| Bitrate.RunInv | src/adaptive_bitrate.rs:342-376 | The invariant over all event sequences |
| Bitrate.ChangesRespectCooldown | src/adaptive_bitrate.rs:210-213 | After a decrease, neither a decrease nor growth for one cooldown |
| Bitrate.CutIsRemembered | src/adaptive_bitrate.rs:246-256 | The recorded cut is never older than a decrease that happened |
| Bitrate.BacklogHappened | src/adaptive_bitrate.rs:220-223 | The remembered backlog is one that occurred |
| Bitrate.DecreasesNeedBacklog | src/adaptive_bitrate.rs:232-241 | Each decrease has a backlog at that moment or less than five seconds before |
| Bitrate.NoBacklogNoDecrease | src/adaptive_bitrate.rs:225-241 | Without backlog neither target nor applied rate ever falls |
| Bitrate.Remembers | src/adaptive_bitrate.rs:220-241 | The algorithm's memory is the last latency and backlog of the run, and a cut only after congestion |
| Bitrate.BacklogCuts | src/adaptive_bitrate.rs:220-264 | With no congestion for a cooldown before it, every backlog takes a quarter off the target, down to the floor, and the encoder is told at once |
| Bitrate.StallCutsIffCorroborated | src/adaptive_bitrate.rs:232-241 | So does an arrival stall exactly if the last backlog is less than five seconds old; otherwise it changes nothing |
| Bitrate.LatencyHoldsGrowth | src/adaptive_bitrate.rs:272-281 | While the last latency reported is above its ceiling no timer tick changes anything |
| Bitrate.QuietTicksGrow | src/adaptive_bitrate.rs:272-281 | A timer tick grows the rate if congestion is a cooldown away and latency not above its ceiling |
| Bitrate.AvoidanceIsLinear | src/adaptive_bitrate.rs:286-291 | In congestion avoidance the target rises by exactly the additive increase per such tick, up to the ceiling, over any stretch of any run without a decrease |
| Bitrate.AvoidanceReachesCeiling | src/adaptive_bitrate.rs:286-302 | Target and applied rate are at the ceiling after as many such ticks as additive increases lead there |
| Bitrate.SlowStartIsGeometric | src/adaptive_bitrate.rs:283-302 | From slow start on, without a backlog, the target grows by two fifths per such tick, up to the ceiling |
| Bitrate.SlowStartReachesCeiling | src/adaptive_bitrate.rs:283-302 | Target and applied rate are at the ceiling after three such ticks per doubling that leads there, from any rate of at least three |
| Bitrate.SlowStartGetsThereIff | src/adaptive_bitrate.rs:283-286 | Slow start gets to the ceiling exactly from a rate of at least three, or if it is there |
| Bitrate.SlowStartIsOver | src/adaptive_bitrate.rs:253-294 | Slow start is never re-entered |
| Bitrate.PushesGoABandUp | src/adaptive_bitrate.rs:78-84 | A push that is no cut starts below the ceiling and goes up a whole band, or to the ceiling |
| Bitrate.GrowthIsPushedIff | src/adaptive_bitrate.rs:60-85 | Growth is pushed to the encoder exactly at the ceiling or from 15 percent above the applied rate on |
| Bitrate.GrowthPushesAreFew | src/adaptive_bitrate.rs:272-414 | Without a cut, at most k pushes if k band-sized jumps from the applied rate reach the ceiling |
| Bitrate.StartIsSoundIffBetween | src/main.rs:180-186 | The invariant holds at start-up exactly if the starting rate lies between floor and ceiling |
| Bitrate.WrongWayIffOutside | src/main.rs:383-387 | The first growth tick lowers the rate exactly if it started above the ceiling; the first cut raises it exactly if it started below the floor |
| Bitrate.BitrateAlgorithm.OnSendBacklog | src/adaptive_bitrate.rs:220-223 | Follows the reaction function; reports the rate if it changed |
| Bitrate.BitrateAlgorithm.OnArrivalStall | src/adaptive_bitrate.rs:232-241 | Likewise |
| Bitrate.BitrateAlgorithm.Tick | src/adaptive_bitrate.rs:272-303 | Follows the growth that the run theorems above measure; reports the rate if it changed |
| Bitrate.BitrateAlgorithm.CutRate | src/adaptive_bitrate.rs:246-264 | Follows the cut; nothing inside the cooldown |
| Bitrate.BitrateAlgorithm.OnLatencyReport | src/adaptive_bitrate.rs:267-269 | Remembers the latency and nothing else |
| Bitrate.AdaptiveBitrateController.MaybeApply | src/adaptive_bitrate.rs:384-414 | Pushes a rate exactly when it is worth a rebuild |
| Bitrate.AdaptiveBitrateController.OnEvent | src/adaptive_bitrate.rs:351-376 | One arm of the loop follows the model and keeps its invariant |
| ShmSlots.CreateKeeps | native-client/src/render/shm.rs:120-133 | Filling an empty slot keeps the discipline: held and releasing buffers sit in the slot their user data names, zombies are held, other slots have the current size |
| ShmSlots.AttachKeeps | native-client/src/render/shm.rs:197-206 | Attaching a released slot keeps it; the buffer was not held and has the current size |
| ShmSlots.ServerReleaseKeeps | native-client/src/render/shm.rs:240-256 | The compositor may release any held buffer at any time |
| ShmSlots.DispatchKeeps | native-client/src/render/shm.rs:246-256 | A Release names the slot that still holds the buffer it was sent for, across resizes and recreation |
| ShmSlots.RetireKeeps | native-client/src/render/shm.rs:142-158 | A resize destroys no held buffer |
| ShmHistory.BusyUntilTold | native-client/src/render/shm.rs:197-256 | In an orderly history a buffer is in use from its commit until the compositor lets it go, and then on its way back until the client is told |
| ShmHistory.UntouchedWhileInUse | native-client/src/render/shm.rs:142-332 | In an orderly history no buffer is written, committed again or destroyed after a commit before the compositor let it go and then the client was told |
| ShmHistory.ReleasedIffIdle | native-client/src/render/shm.rs:246-332 | A slot is marked released exactly while its buffer is with the client, neither in use nor with its release on the way |
| ShmHistory.RecordCommitted | native-client/src/render/shm.rs:197-206 | Committing a released slot's buffer keeps the history orderly and in agreement with slots, held buffers and releases |
| ShmHistory.RecordWritten | native-client/src/render/shm.rs:287-331 | So does writing one |
| ShmHistory.RecordDestroyed | native-client/src/render/shm.rs:142-158 | So does destroying one |
| ShmHistory.RecordLetGo | native-client/src/render/shm.rs:240-256 | So does the compositor's release of any buffer it holds, at any time |
| ShmHistory.RecordTold | native-client/src/render/shm.rs:240-256 | So does telling the client of the oldest release |
| ShmHistory.RoomLeft | native-client/src/render/shm.rs:266-288 | With fewer than three buffers in use or on their way back, some slot is usable |
| ShmSlots.PickNextReleased | native-client/src/render/shm.rs:360-364 | Finds a released slot exactly if there is one, the first in cyclic order from the preferred one |
| ShmSlots.CyclicOrder | native-client/src/render/shm.rs:360-364 | That order goes up from the preferred slot, and from the last to the first |
| ShmSlots.BlitInto | native-client/src/render/shm.rs:450-487 | Centres the frame in the buffer, inside its bounds, by one copy or row by row |
| ShmSlots.PlaceWhole | native-client/src/render/shm.rs:464-470 | The single copy is the same as row by row |
| ShmSlots.PlaceRow | native-client/src/render/shm.rs:476-486 | One row copied extends the part already placed |
| ShmSlots.PlacedIsShown | native-client/src/render/shm.rs:472-487 | The buffer then shows the frame pixel for pixel, cropped to it |
| ShmSlots.NearIsTwoPixels | native-client/src/render/shm.rs:290-304 | Near means at most two pixels off either way |
| ShmRendering.ShmRenderer.CreateBufferSlot | native-client/src/render/shm.rs:366-437 | A new buffer in an empty slot, free and of the current size |
| ShmRendering.ShmRenderer.RecreateSlots | native-client/src/render/shm.rs:120-133 | Fills empty slots with buffers of the current size and touches no other, zombies included; a slot is free afterwards exactly if it was empty or its buffer released |
| ShmRendering.ShmRenderer.Resize | native-client/src/render/shm.rs:142-158 | Destroys released buffers, turns held ones into zombies; the history stays orderly |
| ShmRendering.ShmRenderer.Prime | native-client/src/render/shm.rs:188-206 | Commits a free slot if there is one |
| ShmRendering.ShmRenderer.AttachAndCommit | native-client/src/render/shm.rs:197-206 | A free slot's buffer, of the current size and not held, is attached, committed and held |
| ShmRendering.ShmRenderer.ResizeAndPrime | native-client/src/render/shm.rs:165-181 | Commits the new size at once exactly unless every slot is held |
| ShmRendering.ShmRenderer.DispatchRelease | native-client/src/render/shm.rs:246-256 | Frees exactly the slot of the released buffer, which its user data still names, and destroys the buffer if the slot was a zombie |
| ShmRendering.ShmRenderer.ReleaseSlot | native-client/src/render/shm.rs:246-256 | Frees the indexed slot, drops it if it is a zombie, ignores an empty or unknown index |
| ShmRendering.ShmRenderer.ServerRelease | native-client/src/render/shm.rs:240-256 | The compositor's side: any held buffer may be released at any time; the event queues behind those on their way |
| ShmRendering.ShmRenderer.ShowIn | native-client/src/render/shm.rs:287-331 | Commits the frame at the current size unless it is more than two pixels off |
| ShmRendering.ShmRenderer.PickFree | native-client/src/render/shm.rs:266-288 | Finds a free slot exactly unless every slot is held, the preferred one if that is free |
| ShmRendering.ShmRenderer.Render | native-client/src/render/shm.rs:262-332 | Shows the frame exactly if it is within two pixels of the current size and some slot is not held; the buffer was not held, and slots the compositor holds keep their memory |
| ShmRendering.ShmRenderer.TryDrain | native-client/src/render/shm.rs:213-241 | Shows the newest waiting frame exactly under that condition, and none once the decoder has hung up |
| Display.ConfigureKeepsStep | native-client/src/display/mod.rs:501-535 | A configure keeps renderer and window size in step exactly if it is not a late first one with another size |
| Display.InStepIffNotStale | native-client/src/display/mod.rs:336-372 | Along any sequence of events, injected sizes and applied resizes: out of step exactly if the last change of size came from a late first configure |
| Display.RendererHasWindowSizeIff | native-client/src/display/mod.rs:336-378 | After every turn of any run from start-up, renderer and commits have the window's size exactly under that condition on the events; always if the start-up roundtrip brought a configure |
| Display.OnlyAChangeRepairs | native-client/src/display/mod.rs:517-534 | Out of step, a configure repairs it exactly if it brings a different size |
| Display.ConfigureTakes | native-client/src/display/mod.rs:501-535 | After any configure the window has the size it names; from the second on, a change of size is pending |
| Display.LastConfigureCounts | native-client/src/display/mod.rs:501-535 | After any events the window has the size the last configure named |
| Display.InjectTakes | native-client/src/display/mod.rs:345-358 | An injected size is the window's afterwards, and pending exactly if it is new |
| Display.LateConfigureCommitsOldSize | native-client/src/display/mod.rs:517-534 | Any late first configure of another size, and a frame of the old one: a commit of a size the window no longer has |
| Display.DisplayState.constructor | native-client/src/display/mod.rs:257-317 | Renderer and first commit have the size the first roundtrip left, and a slot stays free |
| Display.DisplayState.HandleConfigure | native-client/src/display/mod.rs:501-535 | Follows the configure function |
| Display.DisplayState.Dispatch | native-client/src/display/mod.rs:336-343 | Dispatching follows the configure function and, the compositor letting go of buffers in between, the function on held buffers and releases; commits nothing and makes no slot less usable |
| Display.DisplayState.ApplyResize | native-client/src/display/mod.rs:345-372 | A pending resize sets the renderer's size and commits one buffer of that size exactly unless every slot is held |
| Display.TurnIsActs | native-client/src/display/mod.rs:336-372 | A turn is dispatch, injection and applied resize in that order |
| Display.DisplayState.ResizeFirst | native-client/src/display/mod.rs:336-372 | Before any frame is shown: dispatch, injection and a pending resize, which is committed at the new size or finds every slot held |
| Display.DisplayState.Tick | native-client/src/display/mod.rs:336-378 | Every commit of a turn has the renderer's size after pending resizes; a pending resize is committed and a fitting newest frame shown unless every slot is held; held buffers and releases are those the events leave, plus the buffers committed |
| Display.DisplayState.RunLoop | native-client/src/display/mod.rs:318-400 | Over any number of turns and any releases by the compositor in between: the history of the buffers is orderly, so no committed buffer was in use and none is touched while it is; releases arrive in order, each for its buffer; a slot is marked released exactly while its buffer is with the client; each commit has the renderer's size at the end of its turn, which is the window's exactly unless the last change of size came from a late first configure |
| Display.ShowMany | native-client/src/display/mod.rs:318-378 | For every n some n turns, in each of which the compositor lets the last buffer go and the client is told, show a frame each: n + 1 commits |
| UsLayout.StrokeProduces | web/src/lib/softKeyboard.ts:43-99 | The key press found for a character produces that character on a US keymap |
| UsLayout.TypableIsAscii | web/src/lib/softKeyboard.ts:40-99 | Exactly the printable ASCII characters and Tab have a key, of all UTF-16 code units |
| UsLayout.TapTypes | web/src/lib/softKeyboard.ts:107-112 | A Shift-wrapped tap types its character and leaves Shift up |
| UsLayout.TapReleases | web/src/lib/softKeyboard.ts:107-118 | After a tap no key is left down |
| SoftKeyboard.ScriptEffect | web/src/lib/softKeyboard.ts:173-180 | Whatever the remote text, a flush erases one character per removed one and types the typable added ones |
| SoftKeyboard.ScriptMeans | web/src/lib/softKeyboard.ts:173-180 | Behind any history, the old value becomes the new one minus what cannot be typed |
| SoftKeyboard.NoShorterScript | web/src/lib/softKeyboard.ts:171-180 | No key sequence at all reaches the same text with fewer Backspaces or fewer writing keys |
| SoftKeyboard.ScriptReleases | web/src/lib/softKeyboard.ts:115-180 | After a flush no key is left down |
| SoftKeyboard.FlushKeepsSync | web/src/lib/softKeyboard.ts:173-188 | A flush keeps remote text and field equal exactly if every added character has a key; trimming the front changes nothing |
| SoftKeyboard.FlushTrims | web/src/lib/softKeyboard.ts:181-188 | A flush keeps up to 64 units in the field and cuts a longer value to its last 16 |
| SoftKeyboard.StepKeepsSync | web/src/lib/softKeyboard.ts:195-241 | The same for every event: line breaks, deletes on an empty field, input, compositions, focus changes |
| SoftKeyboard.LineBreakIsSent | web/src/lib/softKeyboard.ts:198-203 | A line break puts a newline at the remote caret, whatever the field holds, and empties the field |
| SoftKeyboard.DeletesAreSentIff | web/src/lib/softKeyboard.ts:204-219 | With nothing mirrored and no composition a backward delete erases the remote unit before the caret, a forward one the unit after it; otherwise neither is sent |
| SoftKeyboard.StepMeans | web/src/lib/softKeyboard.ts:195-241 | What each event does to the remote text alone: newline, erasure, the field's value in place of what was mirrored of it, or nothing |
| SoftKeyboard.FieldFollows | web/src/lib/softKeyboard.ts:173-241 | What each event leaves in the field, and when a composition is on |
| SoftKeyboard.RunKeepsSync | web/src/lib/softKeyboard.ts:164-262 | Over all event sequences: when the field is settled, the remote text is the history followed by the field |
| SoftKeyboard.UnmappedEatsText | web/src/lib/softKeyboard.ts:122-128 | Typing units without a key after any text and taking them back erases as many units of that text remotely: one for most characters, two for an emoji |
| SoftKeyboard.AttachedKeyboard.TypeText | web/src/lib/softKeyboard.ts:122-128 | Sends the taps of the typable characters, in order |
| SoftKeyboard.AttachedKeyboard.SendChar | web/src/lib/softKeyboard.ts:107-112 | Sends the tap, Shift around it if needed |
| SoftKeyboard.AttachedKeyboard.SendKey | web/src/lib/softKeyboard.ts:115-118 | Sends one key press and release |
| SoftKeyboard.CommonPrefix | web/src/lib/softKeyboard.ts:174-177 | The loop finds the longest common prefix |
| SoftKeyboard.AttachedKeyboard.Reset | web/src/lib/softKeyboard.ts:190-193 | Empties field and mirror; what was mirrored becomes history |
| SoftKeyboard.AttachedKeyboard.OnCompositionStart | web/src/lib/softKeyboard.ts:230-232 | Follows the model |
| SoftKeyboard.AttachedKeyboard.FlushValue | web/src/lib/softKeyboard.ts:173-188 | The loops send exactly the script and trim the field |
| SoftKeyboard.AttachedKeyboard.OnBeforeInput | web/src/lib/softKeyboard.ts:195-223 | Sends Enter for a line break, and Backspace or Delete for a delete that finds nothing mirrored and no composition, nothing else; follows the model; prevents the browser's edit exactly then |
| SoftKeyboard.AttachedKeyboard.OnInput | web/src/lib/softKeyboard.ts:225-228 | Follows the model |
| SoftKeyboard.AttachedKeyboard.OnCompositionEnd | web/src/lib/softKeyboard.ts:233-236 | Follows the model |
| SoftKeyboard.AttachedKeyboard.OnFocusChange | web/src/lib/softKeyboard.ts:240-241 | Starts from a clean slate; the mirrored text becomes history |

## Left out

- The GL compositor and the VAAPI encoder: foreign calls, no row damage. Only CPU frames travel through the model.
- Whether a client's damage covers what it changed in its buffer: `ReportIsEnough` starts from there. The code itself falls short for single-pixel buffers and when a smaller buffer replaces a larger one. That a commit's changes lie within the damage it leaves is part of `Honest`, a premise of `TruthKept` and `TruthLasts` only; `CommitIsSoundIff` says it is exact.
- Reports.SurfaceDamage: buffers with scale 1 and no transform; others report the whole surface. Which damage is new since the last commit comes from smithay.
- Clients that write their shared-memory pool without committing: a scene holds the bytes of its buffers, while a render reads the live pool. The results on conversion, buffers and requests hold all the same, as the machine's renders may paint anything inside the damage; for the picture on screen it is one more thing `Honest` excludes.
- The meaning of `sws_scale` on a band: taken as on x86_64, every row of the band written, luma row r from row r and chroma row c from rows 2c and 2c+1 (the last row alone at an odd height); the deferred rows of other processors are not modelled.
- Failures of the scaler during conversion: conversion is total. Failures after it are modelled by the `sent` flag.
- What follows an encoder that cannot be opened at a new size: the methods say what state and buffers it leaves and that the thread ends, but the machine has no such step.
- Whether libx264 accepted a forced frame: a keyframe request counts as served when its frame is submitted, and the code clears its flag there too.
- 32-bit overflow of `width * height * 4` and of logical coordinates: `SizeOk` bounds sizes, the configured limit included; coordinates are unbounded. The saturating addition on bands is modelled.
- Encoder.X264Encoder.Submit: a frame converted by bands must have the encoder's height, to which its caller has just refitted the encoder. The code would clamp the bands to the frame's own height.
- What a smithay rectangle merge is: the bounding box. Window order, positions and mapping come from smithay as well; a scene is a list of positioned buffers.
- Pixel alpha of windows (the loops overwrite), cursors, titles and other output of the compositor.
- Floating point in the bitrate controller: the factors are the exact fractions 3/4, 7/5 and 3/20 of naturals, rounded down.
- The `/client` handler apart from its takeover: input, video and shutdown arms only appear as a handler leaving of its own accord.
- The EGL renderer of the native client; failures to create a shared-memory buffer.
- ShmSlots.BlitInto: the rows and columns of a letterboxed picture outside the frame keep the buffer's earlier contents, as in the code.
- Wire names of key codes, modifier keys and other keys a hardware keyboard passes through, and the server's keymap beyond the US layout.
- The remote field's own characters outside ASCII: a Backspace there erases one unit.
- The caret of the remote field: it is where the keys left it. The text right of it changes only through Delete.
- Clipboard, touch and pointer translation, session start, HTTP, audio, H.264 and Opus coding, and latency counters.
