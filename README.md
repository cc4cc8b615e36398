# AutoskipExample: the autoskip pipeline, modelled in Dafny

AutoskipExample is a WPF video player that skips a show's intro. A second LibVLC player
decodes the same file with video callbacks. `Lock` hands the decoder a fresh
memory-mapped buffer in a single "current" slot. `Display` forwards every other buffer to a
FIFO queue and disposes the rest. An asynchronous loop, `CompareFrames`, dequeues the
buffers and compares each with the profile's intro reference frame. When the normalised
difference is below 0.05 it raises `MatchFound` and stops the analysis player. The main
view model then shows a skip button, and a click seeks the intro's length past the match.

Where the runtime matters, for `TimeSpan` arithmetic, the model follows .NET Framework.

The project models:

- `stride.dfy` (`Stride`): `Align`, `Pitch`, `Lines` and the buffer size, in unchecked
  32-bit `uint` arithmetic.
- `autoskip_spec.dfy` (`AutoskipSpec`): the pipeline's state as a value. Each decoder
  callback and each turn of the analysis loop is a step function: `Lock`, `Display`,
  `CompareStep`, `Stopped`, `SetReference` and `StartGrab`.
  - The two threads become `Run`, an arbitrary interleaving of those steps.
  - An ownership invariant, `Inv`, is proved for every step and every run.
  - Lemmas cover the decimator's counts, the loop's dequeue and match behaviour,
    cancellation, and sessions.
- `autoskip.dfy` (`Autoskip`): the class `ProcessAutoskip` with its static fields as
  fields. Each method changes them exactly as the matching step function does, and
  `CompareFrames` is a `while` loop proved against `CompareSteps`.
- `image_comparer.dfy` (`ImageComparison`): the `Exact`, `Tolerant` and
  `TolerantPercentage` factories, the root-frame `CompareImagesOrFrames`, and the
  `CompareImages` loop that keeps the non-empty reports.
- `time_text.dfy` (`TimeText`): the text of `TimeSpan.FromMilliseconds(ms).ToString()` in
  .NET's constant ("c") format, and its first eight characters as the player shows them.
- `skip_window.dfy` (`SkipWindow`): `SkipProfile.introLength` and the class
  `AutoSkipWindow`, covering the profile list, the save, new-profile, load and selection
  handlers, and the handlers that enable saving.
- `view_model.dfy` (`ViewModel`): the `Set<T>` notification guard, the 64-bit skip
  target, `CanExecute`, and the class `MainViewModel`.
  - Every raised `PropertyChanged` is recorded by property name.
  - Every seek asked of the player is recorded.
- `wrappers.dfy` (`Wrappers`): `Option`, `Result`, bytes and 32-bit `int`.

Parameters stand in for what the model cannot see:

- The exact comparer's verdict on a buffer is a function `(BufferId, Bytes) -> real`
  fixed when the analyser is built. It stands for decoding the buffer and the reference
  frame and taking the total normalised difference.
- The frame-level comparison of `ImageComparer` is a function parameter.
- JPEG encoding and image loading in the profile window are function-valued constants.
- The player's `Time` and `Length` are parameters of the time-changed handler.
- The main player's time is a parameter of `ShowSkipBtn`, and of `StartAutoSkip` and `videoviewDrop`, whose matches call it.
- A picked file is a parameter of the intro-reference button.
- The profile file read at start-up is a parameter of the window's constructor.

Behaviour kept as the code has it:

- `MatchFound` is not gated. Every below-threshold frame dequeued before the Stopped report
  arrives raises it again and asks for another stop (`RepeatedMatch`).
- Cancelling does not drain the queue. Until the next grab nothing queued is compared or
  disposed (`CancelledRun`).
- A matched buffer is disposed twice. Disposal is kept as a set of disposed buffers, so the
  second disposal changes nothing.
- `FrameCounter`, the slot and the queue are static and survive `StartGrab`. A new session
  compares frames left over from the previous one first (`StaleFrameNextSession`).
- `StartGrab` is not awaited, but it runs synchronously up to its first incomplete
  `await`. The frames still queued are therefore compared before `StartAutoSkip`
  returns, and a match among them shows the skip button again, with the old main
  player's time, before `videoviewDrop` plays the new file (`StartAutoSkip`).
- The combo box shows the profile list only when the profile file existed at start-up.
  Otherwise nothing can be selected (`itemsBound`).

## Model

| member | source | states |
|---|---|---|
| Stride.MulU32 | utilities/ProcessAutoskip.cs:51 | the unchecked `uint` product is the true product whenever that fits in 32 bits |
| Stride.Align | utilities/ProcessAutoskip.cs:54-62 | the result is a multiple of 32; below the wrap-around it is at least `size` and less than `size + 32`; a multiple of 32 is returned unchanged; above `2^32 - 32` the sum wraps to 0 |
| Stride.AlignIsLeastMultiple | utilities/ProcessAutoskip.cs:54-62 | below the wrap-around no multiple of 32 that holds `size` is smaller than `Align(size)` |
| Stride.AlignIdempotent | utilities/ProcessAutoskip.cs:54-62 | aligning an aligned size changes nothing |
| Stride.GeometryValues | utilities/ProcessAutoskip.cs:29-52 | `Pitch = 2880`, `Lines = 480`, and the buffer size `Pitch * Lines` is 1 382 400 bytes with no wrap-around |
| AutoskipSpec.Inc64 | utilities/ProcessAutoskip.cs:180 | `FrameCounter++` on a `long`: one more, except that the largest value wraps to the smallest |
| AutoskipSpec.Inc32 | utilities/ProcessAutoskip.cs:146 | `frameNumber++` on an `int`: one more, except that the largest value wraps to the smallest |
| AutoskipSpec.Inc64FlipsParity | utilities/ProcessAutoskip.cs:167-180 | each increment of the counter, wrap included, flips its parity, so the decimator alternates |
| AutoskipSpec.Initial | utilities/ProcessAutoskip.cs:64-66 | before the first decoded picture no buffer exists, the slot and queue are empty, the counter is 0, no loop runs, no analysis player exists, and nothing has been stopped or matched |
| AutoskipSpec.Lock | utilities/ProcessAutoskip.cs:155-161 | the slot holds a buffer of `Pitch * Lines` bytes; a buffer already in the slot is abandoned, not disposed; the queue, the disposed buffers and the counter are untouched |
| AutoskipSpec.Stopped | utilities/ProcessAutoskip.cs:86 | the token is cancelled, and nothing is drained, disposed, stopped or matched by it |
| AutoskipSpec.SetReference | utilities/ProcessAutoskip.cs:23 | the reference is the given image; the queue, slot, token, frame number and stop requests are untouched |
| AutoskipSpec.StartGrab | utilities/ProcessAutoskip.cs:69-104 | one Stop is requested exactly when an analysis player already exists, and afterwards one does; the token is fresh, the frame number 0 and the reference the given one; the static slot, counter and queue, the disposed buffers and the matches stay |
| AutoskipSpec.Display | utilities/ProcessAutoskip.cs:165-181 | the counter stays a `long` and the loop's frame number is untouched |
| AutoskipSpec.CompareStep | utilities/ProcessAutoskip.cs:119-147 | one turn keeps the frame number an `int` and never touches the decoder's counter |
| AutoskipSpec.InitialInv | utilities/ProcessAutoskip.cs:65-67 | the start state, with an empty slot, queue and counter 0, satisfies the ownership invariant |
| AutoskipSpec.LockInv | utilities/ProcessAutoskip.cs:155-161 | `Lock` keeps the invariant: the new buffer has `Pitch * Lines` bytes and a buffer it pushes out of the slot is held as abandoned, not lost |
| AutoskipSpec.DisplayInv | utilities/ProcessAutoskip.cs:165-181 | `Display` keeps the invariant: an enqueued buffer was not queued before, so the queue stays duplicate-free and FIFO with respect to the enqueue history |
| AutoskipSpec.CompareStepInv | utilities/ProcessAutoskip.cs:119-147 | a turn keeps the invariant: the dequeued head moves from the queue to the disposed buffers |
| AutoskipSpec.StoppedInv | utilities/ProcessAutoskip.cs:86 | cancelling keeps the invariant |
| AutoskipSpec.SetReferenceInv | utilities/ProcessAutoskip.cs:23 | assigning `introScreenshot` keeps the invariant |
| AutoskipSpec.StartGrabInv | utilities/ProcessAutoskip.cs:69-104 | starting a grab keeps the invariant |
| AutoskipSpec.Next | utilities/ProcessAutoskip.cs:86-100 | any enabled step keeps both counters inside their C# types |
| AutoskipSpec.Run | utilities/ProcessAutoskip.cs:86-100 | any feasible interleaving of steps keeps both counters inside their C# types |
| AutoskipSpec.NextInv | utilities/ProcessAutoskip.cs:86-181 | every enabled step keeps the invariant |
| AutoskipSpec.NextGrows | utilities/ProcessAutoskip.cs:116-181 | one step only extends the enqueue, dequeue and match histories and only adds disposals, buffers and stop requests |
| AutoskipSpec.RunInv | utilities/ProcessAutoskip.cs:116-181 | along any interleaving the invariant holds, the dequeued buffers are a prefix of the enqueued ones (FIFO) with no buffer twice, and every history only grows |
| AutoskipSpec.Frame | utilities/ProcessAutoskip.cs:155-181 | a decoded picture, `Lock` then `Display`, keeps the counter a `long` |
| AutoskipSpec.Frames | utilities/ProcessAutoskip.cs:155-181 | any number of decoded pictures keep the counter a `long` |
| AutoskipSpec.Forwarded | utilities/ProcessAutoskip.cs:167-180 | of `k` pictures at most `k` are forwarded |
| AutoskipSpec.ForwardedClosedForm | utilities/ProcessAutoskip.cs:167-180 | starting on an even counter ceil(k/2) of `k` pictures are forwarded, otherwise floor(k/2) |
| AutoskipSpec.InvFreshIds | utilities/ProcessAutoskip.cs:157 | under the invariant no disposed buffer is newer than the last one created |
| AutoskipSpec.FrameEffect | utilities/ProcessAutoskip.cs:165-181 | on an even counter the new buffer goes to the tail of the queue and nothing is disposed; on an odd one the queue is unchanged and exactly that buffer is disposed; the slot is emptied and the parity flips |
| AutoskipSpec.FramesInv | utilities/ProcessAutoskip.cs:155-181 | decoded pictures keep the invariant and leave the slot empty, and the analysis side (dequeues, matches, frame number, cancellation) is unchanged |
| AutoskipSpec.FramesQueue | utilities/ProcessAutoskip.cs:165-172 | over `k` pictures exactly `Forwarded(c, k)` buffers join the tail and the earlier queue is untouched |
| AutoskipSpec.FramesReleased | utilities/ProcessAutoskip.cs:173-180 | over `k` pictures the other `k - Forwarded(c, k)` fresh buffers are disposed, and the counter's parity moves with `k` |
| AutoskipSpec.FramesCount | utilities/ProcessAutoskip.cs:163-181 | both of the above together |
| AutoskipSpec.FramesFromStart | utilities/ProcessAutoskip.cs:163-167 | from counter 0, `k` pictures enqueue ceil(k/2) buffers and dispose floor(k/2) |
| AutoskipSpec.CompareSteps | utilities/ProcessAutoskip.cs:116-153 | `n` turns keep the frame number an `int` |
| AutoskipSpec.CompareStepsSnoc | utilities/ProcessAutoskip.cs:119-152 | `n + 1` turns are `n` turns followed by one more |
| AutoskipSpec.MatchLog | utilities/ProcessAutoskip.cs:134-137 | comparing `n` files raises at most `n` events |
| AutoskipSpec.MatchLogEmpty | utilities/ProcessAutoskip.cs:134-137 | no event is raised iff every compared frame's difference is at least 0.05 |
| AutoskipSpec.CompareStepsQueue | utilities/ProcessAutoskip.cs:121-146 | while not cancelled, `n` turns dequeue exactly the first `n` queued buffers, in order |
| AutoskipSpec.CompareStepsMatches | utilities/ProcessAutoskip.cs:134-140 | the same `n` turns raise `MatchFound`, and request a stop, for exactly the below-threshold ones, numbered from the current frame number |
| AutoskipSpec.CompareStepsEffect | utilities/ProcessAutoskip.cs:119-146 | both of the above together |
| AutoskipSpec.CompareStepsFrame | utilities/ProcessAutoskip.cs:138-145 | the same `n` turns dispose exactly the dequeued buffers, keep the session running and leave the slot, the counter, the buffers and the reference alone |
| AutoskipSpec.CompareStepMatchIff | utilities/ProcessAutoskip.cs:121-146 | a dequeued frame raises `MatchFound` and asks for one stop iff its difference is below 0.05; either way the head is dequeued and disposed and the frame number advances |
| AutoskipSpec.CompareStepDequeues | utilities/ProcessAutoskip.cs:121-146 | a turn on a non-empty queue moves its head to the dequeued history and does not cancel |
| AutoskipSpec.IdleCompareStep | utilities/ProcessAutoskip.cs:119-151 | with an empty queue, or once cancelled, a turn changes nothing |
| AutoskipSpec.RepeatedMatch | utilities/ProcessAutoskip.cs:119-140 | two below-threshold frames dequeued before the Stopped report raise `MatchFound` twice and ask for two stops |
| AutoskipSpec.CancelledRun | utilities/ProcessAutoskip.cs:119-151 | once cancelled and until the next grab, nothing is dequeued, compared or raised, and the queued buffers stay queued and undisposed |
| AutoskipSpec.StaleFrameNextSession | utilities/ProcessAutoskip.cs:69-104 | `StartGrab` keeps the counter, the slot and the queue, and the new session's first turn compares the previous session's head |
| AutoskipSpec.GrabStopsExistingPlayer | utilities/ProcessAutoskip.cs:71-79 | the first grab after start-up stops nothing, and every later grab stops the existing player once |
| Autoskip.ProcessAutoskip.constructor | utilities/ProcessAutoskip.cs:23-67 | the analyser starts in the initial state, which satisfies the invariant |
| Autoskip.ProcessAutoskip.Lock | utilities/ProcessAutoskip.cs:155-161 | the fields change exactly as `AutoskipSpec.Lock`; the new buffer is fresh, sits in the slot and has `Pitch * Lines` bytes |
| Autoskip.ProcessAutoskip.Display | utilities/ProcessAutoskip.cs:165-181 | the fields change exactly as `AutoskipSpec.Display`: on an even counter the slot's buffer is appended to the queue, on an odd one it is disposed; the slot is emptied and the counter incremented |
| Autoskip.ProcessAutoskip.CompareStep | utilities/ProcessAutoskip.cs:119-147 | the fields change exactly as `AutoskipSpec.CompareStep`; a buffer is dequeued iff the loop runs and the queue is non-empty, it is the head, and it matched iff its difference is below 0.05 |
| Autoskip.ProcessAutoskip.PlayerStopped | utilities/ProcessAutoskip.cs:86 | the Stopped report cancels the loop's token, as `AutoskipSpec.Stopped` |
| Autoskip.ProcessAutoskip.SetIntroScreenshot | utilities/ProcessAutoskip.cs:23 | assigning the public reference field changes it and nothing else |
| Autoskip.ProcessAutoskip.StartGrab | utilities/ProcessAutoskip.cs:69-104 | the first grab creates the player and a later one counts a Stop of the existing player; then a fresh token and a loop whose frame number starts at 0, against the current reference, as `AutoskipSpec.StartGrab` |
| Autoskip.ProcessAutoskip.CompareFrames | utilities/ProcessAutoskip.cs:116-153 | with nothing interleaved, the loop does nothing once cancelled, and otherwise empties the queue in exactly `CompareSteps` of its length |
| ImageComparison.Image.Frames | ImageSharp.Tests/TestUtilities/ImageComparison/ImageComparer.cs:49-61 | an image's frames are its root frame followed by the other frames |
| ImageComparison.Tolerant | ImageSharp.Tests/TestUtilities/ImageComparison/ImageComparer.cs:19-24 | the comparer carries the two thresholds given, the per-pixel one 0 unless given |
| ImageComparison.Exact | ImageSharp.Tests/TestUtilities/ImageComparison/ImageComparer.cs:12 | both thresholds are 0 |
| ImageComparison.TolerantPercentage | ImageSharp.Tests/TestUtilities/ImageComparison/ImageComparer.cs:30-31 | the image threshold is the percentage divided by 100, the per-pixel threshold as given and 0 by default |
| ImageComparison.FactoryRelations | ImageSharp.Tests/TestUtilities/ImageComparison/ImageComparer.cs:12-31 | `Exact = Tolerant(0)`, `TolerantPercentage(p, t) = Tolerant(p / 100, t)`, its default per-pixel threshold is 0, and 0 percent is `Exact` |
| ImageComparison.CompareImagesOrFrames | ImageSharp.Tests/TestUtilities/ImageComparison/ImageComparer.cs:42-50 | the image-level comparison is the frame-level comparison of the two root frames |
| ImageComparison.FrameReports | ImageSharp.Tests/TestUtilities/ImageComparison/ImageComparer.cs:66-68 | the `i`-th report compares the `i`-th frames of the two images |
| ImageComparison.NonEmpty | ImageSharp.Tests/TestUtilities/ImageComparison/ImageComparer.cs:69-72 | no more reports are kept than there are frames |
| ImageComparison.NonEmptyIndices | ImageSharp.Tests/TestUtilities/ImageComparison/ImageComparer.cs:66-72 | every kept index is a frame index |
| ImageComparison.NonEmptyIndicesExact | ImageSharp.Tests/TestUtilities/ImageComparison/ImageComparer.cs:66-73 | the kept indices increase strictly, each is that of a non-empty report, and every non-empty report's index is among them |
| ImageComparison.NonEmptyAtIndices | ImageSharp.Tests/TestUtilities/ImageComparison/ImageComparer.cs:66-73 | the `k`-th kept report is the report at the `k`-th kept index |
| ImageComparison.NonEmptySelects | ImageSharp.Tests/TestUtilities/ImageComparison/ImageComparer.cs:66-73 | the kept reports are exactly the non-empty ones, in increasing frame order |
| ImageComparison.NonEmptyAllEmpty | ImageSharp.Tests/TestUtilities/ImageComparison/ImageComparer.cs:59-74 | every kept report is non-empty, and none is kept iff every report is empty |
| ImageComparison.CompareImages | ImageSharp.Tests/TestUtilities/ImageComparison/ImageComparer.cs:52-75 | fails with "Frame count does not match!" iff the frame counts differ; otherwise returns the non-empty frame-by-frame reports in frame order |
| ImageComparison.SingleFrame | ImageSharp.Tests/TestUtilities/ImageComparison/ImageComparer.cs:42-75 | for single-frame images the result is the root-frame report when that is non-empty, and nothing otherwise |
| TimeText.Padded | ViewModel/MainViewModel.cs:144 | a fixed-width field of the time text has exactly that many decimal digits |
| TimeText.Decimal | ViewModel/MainViewModel.cs:144 | the day count is written with at least one decimal digit |
| TimeText.PaddedTwoValue | ViewModel/MainViewModel.cs:144 | a two-digit field reads back as its number |
| TimeText.DecimalValue | ViewModel/MainViewModel.cs:144 | the day count reads back as itself |
| TimeText.SpanParts | ViewModel/MainViewModel.cs:144 | the span's hours, minutes, seconds and ticks are in range, and it is negative iff the milliseconds are |
| TimeText.Format | ViewModel/MainViewModel.cs:144 | the span's text has at least eight characters and starts with a minus sign iff the span is negative |
| TimeText.TimeSpanText | ViewModel/MainViewModel.cs:144 | `TimeSpan.FromMilliseconds(ms).ToString()` has at least eight characters and starts with a minus sign iff `ms` is negative |
| TimeText.ClockText | ViewModel/MainViewModel.cs:144-145 | the shown text is eight characters long, so `Substring(0, 8)` never throws for a representable time |
| TimeText.ClockWithinDay | ViewModel/MainViewModel.cs:144-145 | for 0 <= t < 24 h the shown text is the zero-padded `hh:mm:ss` of `t` |
| TimeText.ParseClockOf | ViewModel/MainViewModel.cs:144-145 | an `hh:mm:ss` clock of two-digit numbers is well formed and reads back as its seconds |
| TimeText.ClockRoundTrip | ViewModel/MainViewModel.cs:144-145 | for 0 <= t < 24 h the shown text is a well-formed clock that reads back as `t` in whole seconds |
| TimeText.ClockPastDay | ViewModel/MainViewModel.cs:144 | from one day on the text starts with the day count: 25 hours shows `1.01:00:` |
| TimeText.ClockNegative | ViewModel/MainViewModel.cs:144 | a negative span is signed: minus one second shows `-00:00:0` |
| TimeText.DaysFirst | ViewModel/MainViewModel.cs:144 | for a day or more the text starts with the day count and a dot |
| SkipWindow.FromMinutes | View/AutoSkipWindow.xaml.cs:186 | whole minutes become exactly `60000` milliseconds' worth of ticks each |
| SkipWindow.FromSeconds | View/AutoSkipWindow.xaml.cs:186 | whole seconds become exactly `1000` milliseconds' worth of ticks each |
| SkipWindow.IntroLength | View/AutoSkipWindow.xaml.cs:183-187 | `introLength = 60000 * introMin + 1000 * introSec` milliseconds, always inside a `long`, as .NET Framework's `TotalMilliseconds` gives it |
| SkipWindow.IntroLengthSteps | View/AutoSkipWindow.xaml.cs:186 | (0, 0) gives 0; one more second adds exactly 1000 and one more minute exactly 60000 |
| SkipWindow.IntroLengthSplit | View/AutoSkipWindow.xaml.cs:183-187 | minutes and fewer than 60 seconds can be read back from the length |
| SkipWindow.AutoSkipWindow.constructor | View/AutoSkipWindow.xaml.cs:26-59 | the profiles are those of the file when it exists, and empty otherwise; they are added to the items in file order; the items are shown only when the file existed |
| SkipWindow.AutoSkipWindow.SaveProfile | View/AutoSkipWindow.xaml.cs:150-154 | the profile is appended to `profiles`, earlier entries unchanged, and the file holds the new list |
| SkipWindow.AutoSkipWindow.NewProfile | View/AutoSkipWindow.xaml.cs:118-131 | the new profile copies the name, intro minutes and seconds, and the outro length from the minutes field; its intro and outro bytes are the same encoding of the intro frame |
| SkipWindow.AutoSkipWindow.SaveProfileClick | View/AutoSkipWindow.xaml.cs:113-142 | an empty name changes nothing; a missing intro frame throws before any change; otherwise the new profile is saved, appended to the items, becomes the current profile and the last item, and saving is disabled |
| SkipWindow.AutoSkipWindow.NewProfileClick | View/AutoSkipWindow.xaml.cs:163-171 | the selection is cleared, all four lengths are 0 and saving is enabled |
| SkipWindow.AutoSkipWindow.LoadProfile | View/AutoSkipWindow.xaml.cs:99-111 | the fields show the profile, both outro fields its one outro length; its intro frame is decoded; it becomes current; saving is disabled |
| SkipWindow.AutoSkipWindow.SelectionChanged | View/AutoSkipWindow.xaml.cs:156-161 | selecting an item loads it as the current profile; clearing the selection loads nothing |
| SkipWindow.AutoSkipWindow.LoadIntroReference | View/AutoSkipWindow.xaml.cs:69-82 | a picked frame becomes the intro image; the click enables saving either way |
| SkipWindow.AutoSkipWindow.EditIntroLength | View/AutoSkipWindow.xaml.cs:53-54 | editing the intro length sets it and enables saving |
| SkipWindow.AutoSkipWindow.EditProfileName | View/AutoSkipWindow.xaml.cs:55 | typing a name changes the text and nothing else |
| ViewModel.Set | ViewModel/MainViewModel.cs:75-82 | the field ends up holding the value, and `PropertyChanged` is raised iff the old and new values differ |
| ViewModel.SetIdempotent | ViewModel/MainViewModel.cs:77 | repeating a `Set` with the same value changes nothing and raises nothing |
| ViewModel.AddLong | ViewModel/MainViewModel.cs:241 | the `long` sum: exact when it fits, wrapped by 2^64 otherwise |
| ViewModel.SkipTarget | ViewModel/MainViewModel.cs:241 | the seek target is a `long` |
| ViewModel.SkipTargetExact | ViewModel/MainViewModel.cs:241 | for match times below 2^62 ms the target is exactly the intro's minutes and seconds past the match |
| ViewModel.CanExecute | ViewModel/MainViewModel.cs:151-158 | every command may always run |
| ViewModel.MainViewModel.constructor | ViewModel/MainViewModel.cs:17-19 | no LibVLC, no player, no notifications and no seeks yet |
| ViewModel.MainViewModel.SetLibVLC | ViewModel/MainViewModel.cs:21-26 | the field takes the value, with one notification iff it changed |
| ViewModel.MainViewModel.SetMediaPlayer | ViewModel/MainViewModel.cs:31-36 | the field takes the value, with one notification iff it changed |
| ViewModel.MainViewModel.SetButtonUpdateVisibility | ViewModel/MainViewModel.cs:59-68 | the visibility takes the value and a notification is raised on every assignment |
| ViewModel.MainViewModel.ShowSkipBtn | ViewModel/MainViewModel.cs:69-73 | with a player, it completes: the player's time becomes the match time and the button becomes visible, with one notification; without a player it throws before any change |
| ViewModel.MainViewModel.CompareQueuedFrames | utilities/ProcessAutoskip.cs:116-147 | the frames queued when the loop starts are compared in order before the first `await`, as `CompareSteps` does; each match calls `ShowSkipBtn`, so with a main player each notifies once and leaves the button Visible at the player's time; without one the first match throws, ends the loop and changes nothing in the view model |
| ViewModel.MainViewModel.StartAutoSkip | ViewModel/MainViewModel.cs:117-124 | without a current profile nothing changes; otherwise the reference becomes the profile's intro frame, a grab starts, and the frames still queued are compared before the call returns: the matches raised are exactly the below-threshold ones among them, numbered from 0, and each shows the skip button as `ShowSkipBtn` does |
| ViewModel.MainViewModel.Play | ViewModel/MainViewModel.cs:96-114 | the old player is dropped, with a notification when there was one, and the new one becomes the player, with another |
| ViewModel.MainViewModel.VideoviewDrop | ViewModel/MainViewModel.cs:84-93 | the button is hidden, notified first; the grab starts and compares the frames still queued, as in `StartAutoSkip`, so a match among them shows the button again with the old player's time; then the new player is set; LibVLC, the seeks and the two clock texts are unchanged |
| ViewModel.MainViewModel.SetPlaybackTime | ViewModel/MainViewModel.cs:128-133 | the playback text takes the value and a notification is raised on every assignment |
| ViewModel.MainViewModel.SetFileLength | ViewModel/MainViewModel.cs:135-140 | the length text takes the value and a notification is raised on every assignment |
| ViewModel.MainViewModel.TimeChanged | ViewModel/MainViewModel.cs:142-146 | without a player it throws first; an out-of-range time throws before any change; an out-of-range length throws after the playback text is set; otherwise the playback and length texts are the clocks of the player's time and length, notified in that order |
| ViewModel.MainViewModel.SkipClicked | ViewModel/MainViewModel.cs:239-243 | without a player or a current profile it throws before seeking; otherwise the player seeks to the intro's length past the match |

## Left out

- LibVLC itself is not modelled: creating the players and media, `SetVideoFormat`, `SetVideoCallbacks`, `Play` and `Dispose`. Its `Stop` is kept only as a count of stop requests, both the one `StartGrab` makes on an existing player and the one made on a match; the `Stop` in `StopPlay` is not modelled. Its Stopped event is kept only as the `Stopped` step.
- Memory-mapped files, view accessors, `Marshal.WriteIntPtr` and the copy into the image span are left out. A buffer is an identity with a size and a disposed flag.
- The pixel-difference computation is not modelled, because `TolerantImageComparer` and `ImageSimilarityReport` are not part of this model. The comparer's verdict is a function parameter, and a report is empty when it lists no differences.
- `TolerantImageComparer.DefaultImageThreshold` is not part of this model. `Tolerant` therefore takes its image threshold without a default.
- `ViewModel.MainViewModel.CompareQueuedFrames` and `ViewModel.MainViewModel.StartAutoSkip` leave out four things.
  - Frames the decoder adds while the queued ones are compared are not drained in the same call.
  - A Stopped report arriving during that time is not modelled.
  - One player time stands for every `MediaPlayer.Time` read.
  - When `ShowSkipBtn` throws without a main player, the model still completes the matching turn (its disposal, the `Stop` and `frameNumber++`), which the exception cuts short in the source. It also leaves the token uncancelled, although the faulted loop never turns again.
- Real threading is not modelled: `ConcurrentQueue`, `Task.Delay`, `CancellationTokenSource`, `Task.Run` and `async`/`await`. The two threads are arbitrary interleavings of atomic steps (`AutoskipSpec.Run`).
- Floating-point rounding in `float` thresholds and `TotalNormalizedDifference` is left out. They are reals.
- The WPF windows, dialogs, message boxes, bindings and XML persistence are left out. The profile file is the `stored` field.
- Image decoding, resizing and JPEG encoding are function-valued parameters.
- `AutoskipSpec.Display` and `Autoskip.ProcessAutoskip.Display` require a filled slot. With an empty slot, an even counter enqueues a `(null, null)` pair, whose null reference error comes later in `CompareFrames` and faults the `StartGrab` task, since only `OperationCanceledException` is caught there; an odd counter dereferences null in `Display` itself. Neither fault is modelled.
- The `PropertyChanged(this, …)` calls with no subscriber would throw. The model assumes a subscriber, as the bound view always is one.
- `ViewModel.MainViewModel.StartAutoSkip` hands over the profile's encoded intro bytes. The source hands over the decoded `introScreenshot` image, and in the model decoding is part of the comparator.
- A null `introScreenshot` at the time of a comparison is left out.
- `SkipWindow.AutoSkipWindow.EditProfileName` does not enable saving. The `TextInput` handler at line 55 is documented there as not firing when the name changes.
- The XAML default state of the save button is not part of this model. The model starts with saving enabled.
- `TimeText.TimeSpanText` follows .NET Framework's `TimeSpan.FromMilliseconds`: whole milliseconds become exact ticks, and from 922 337 203 685 477 ms in magnitude it throws. .NET Core 3 and later accept that boundary value, and their ticks are not exact from about 1.4e13 ms on; the model does not follow them.
- `SkipWindow.IntroLength`: the exact sum assumes .NET Framework's `TotalMilliseconds` (`ticks * 0.0001`, in `double`). Under .NET Core (`ticks / 10000.0`) the truncated result can be one less from about 1.9e9 minutes on, for example 128849018820999 for (2147483647, 1); floating point is not modelled.
- The `Debug.WriteLine` logging in `StartGrab` and `CompareFrames` is left out, as it changes no state. A failing `MemoryMappedFile.CreateNew` in `Lock`, an exception on the decoder thread, is left out too: `Lock` always yields a buffer.
- `ImageComparison.CompareImages` takes both images with one frame type. The source is generic in two pixel types, `TPixelA` and `TPixelB`. The frame comparison is a parameter here, so nothing depends on the difference.
- `SkipProfile` is a class in the source, compared by reference. Here it is a value, because its fields are never changed after it is built.
- `OnLoad` is not modelled as an operation. It creates LibVLC, plays a sample file, creates the analyser, subscribes `ShowSkipBtn` to it and hides the button. The constructor's analyser parameter stands for the analyser and its subscription. LibVLC and the first player can be set with `SetLibVLC` and `Play`.
- `StopPlay`, `TogglePause`, casting, renderer discovery and the outro-reference button are not modelled. They are player and UI glue with no state the model tracks.
