# RandomVideo — a Dafny model of the playback core

RandomVideo plays random segments of the video files in a directory, one after
another, in a resizable pygame window. For each segment a producer thread
(`FrameLoader`) decodes frames into a bounded queue, and the player's loop
takes them off the queue and shows them.

`RandomVidoe.py` is a byte-for-byte copy of `RandomVideo.py`, with the same
functions at the same line numbers. The model below covers both. The table
cites `RandomVideo.py` only.

The model covers the logic that is left once pygame, moviepy, threads and
wall-clock pacing are taken out:

- **Catalogue** (`catalogue.dfy`, `get_movie_files`): the case-insensitive
  suffix test, then the probing loop. The loop keeps files that are long
  enough and stops at a truthy `max_videos`. It is proved equal to "the first
  `max_videos` suitable files, in iteration order", and its three dictionaries
  are proved to describe exactly those files.
- **Player** (`player.dfy`, `MoviePlayer`): the start-up refusal of an empty
  catalogue, and the playlist cursor of `play_playlist` as a class. The cursor
  stays in range, hands out only catalogued files, and reshuffles only when it
  is exhausted. With distinct files, each pass hands out each file once.
- **Segment** (`segment.dfy`, `_play_single_video`): the play duration, the
  start and the end of a segment, with each `random.randint` supplied as a
  pick in its range.
- **Arguments** (`arguments.dfy`, `main`): the argument checks, and what they
  let through (see Findings).
- **Layout** (`layout.dfy`, `calculate_centered_position`): floor-halved
  margins.
- **ClockLabel** (`clock_label.dfy`): the `MM:SS` total-time label. It is
  formatted with Python's floor `//` and `%` and `:02d` padding, and it is
  proved to read back to the same duration.
- **Playback** (`playback.dfy`, `_play_frames` and `_handle_events`): what a
  `get` leads to, the event scan, and the consumer loop without pacing. Each
  iteration's `get` result, loader error, pending events and drawing outcome
  are inputs.
- **Loader** (`loader.dfy`, `FrameLoader`): the frame loop of `run` and
  `stop`. The stop flag at each check and the outcome of each `put` are inputs.

Randomness is always an input. A shuffle is any order with the same multiset.
A `randint` is a pick with a range precondition. The probe of a file is a
function from file name to `Option<Metadata>`, where `None` means opening the
file raised.

## Model

| member | source | states |
|---|---|---|
| `Segment.PlayDuration` | RandomVideo.py:196-199 | a clip at least `min_interval` long gets a play duration in `[min_interval, max_interval]` that does not exceed the clip; a shorter clip is played whole |
| `Segment.StartTime` | RandomVideo.py:201 | the start lies in `[0, duration - play_duration]`, and is 0 when the whole clip is played |
| `Segment.Select` | RandomVideo.py:196-202 | the window starts at or after 0, ends at or before the clip's end, and spans exactly the play duration; for a long-enough clip the play duration lies within both `randint` bounds |
| `Segment.PlayBoundsOrdered` | RandomVideo.py:196-199 | when the play duration is drawn, `min_interval <= min(max_interval, duration)`, so `randint` cannot raise |
| `Segment.PlayNonNegative` | RandomVideo.py:196-202 | with a non-negative `min_interval` and duration, the play duration is non-negative and the start is not after the end |
| `Segment.SelectReachesEveryWindow` | RandomVideo.py:196-202 | every (play duration, start) pair inside the `randint` ranges is a valid pick and yields exactly that window |
| `Arguments.CheckArguments` | RandomVideo.py:325-331 | `main` accepts the arguments exactly when `max_interval >= min_interval` and a given `max_videos` is positive |
| `Arguments.CheckArgumentsCorrected` | RandomVideo.py:325-331 | accepts exactly what `CheckArguments` accepts with a non-negative `min_interval` |
| `Arguments.NegativeMinIntervalGivesBackwardWindow` | RandomVideo.py:196-202 | `min_interval = -5` passes the checks, and a 100-second clip can then get a window starting at 105 and ending at 100 |
| `Arguments.CorrectedArgumentsGiveWindowsInsideClip` | RandomVideo.py:196-202 | under the corrected checks every window has a non-negative length and lies inside the clip |
| `Layout.HalfFloor` | RandomVideo.py:153-154 | Python's `// 2` gives the quotient whose double is the operand or one less |
| `Layout.CenteredPosition` | RandomVideo.py:148-156 | on each axis the far margin equals the near margin or exceeds it by one |
| `Layout.CenteredPositionUnique` | RandomVideo.py:148-156 | any offset whose margins differ like that is the computed position |
| `Layout.CenteredInsideWindow` | RandomVideo.py:148-156 | a frame no larger than the window is drawn entirely inside it |
| `Layout.CenteredOverhang` | RandomVideo.py:148-156 | a frame wider than the window overhangs the left edge, and reaches or overhangs the right edge by at most as much as the left |
| `ClockLabel.Digits` | RandomVideo.py:297 | a non-empty string of decimal digits, one digit exactly for values below 10 |
| `ClockLabel.Pad2` | RandomVideo.py:297 | `:02d` gives at least two characters: exactly two digits for 0..99, all digits for non-negatives, and a leading `-` for negatives |
| `ClockLabel.Label` | RandomVideo.py:297 | the label ends in `:` and two digits; for a non-negative duration the minutes are all digits, and below 6000 seconds the label is exactly `MM:SS` |
| `ClockLabel.ParseDigitsOfDigits` | RandomVideo.py:297 | reading back the decimal digits of `n` gives `n` |
| `ClockLabel.LabelRoundTrip` | RandomVideo.py:297 | the label reads back as minutes and seconds with seconds in 00-59 and `60 * minutes + seconds == duration` |
| `Catalogue.Lower` | RandomVideo.py:87 | `str.lower()` keeps the length and lowers each ASCII capital |
| `Catalogue.LowerIdempotent` | RandomVideo.py:87 | lowering twice is lowering once |
| `Catalogue.HasVideoExtensionIgnoresCase` | RandomVideo.py:87 | the suffix test gives the same answer for a name and its lower-case form |
| `Catalogue.HasVideoExtensionIsLastFour` | RandomVideo.py:87 | a name passes exactly when its last four characters, lowered, are `.mov`, `.mp4`, `.avi` or `.mkv` |
| `Catalogue.HasVideoExtension` | RandomVideo.py:87 | `f.lower().endswith(...)` holds exactly when the name has at least four characters and the last four, lowered, are `.mov`, `.mp4`, `.avi` or `.mkv` |
| `Catalogue.Candidates` | RandomVideo.py:85-88 | the candidates are exactly the listed names that pass the suffix test |
| `Catalogue.Filter` | RandomVideo.py:101-110 | the kept files are exactly those whose probe succeeded with a duration of at least `min_interval` |
| `Catalogue.FilterAppend` | RandomVideo.py:98-110 | filtering a concatenation filters each part in turn |
| `Catalogue.FilterIsSubsequence` | RandomVideo.py:98-110 | the kept files keep iteration order |
| `Catalogue.Capped` | RandomVideo.py:99 | `max_videos` caps the catalogue only when it is truthy: neither `None` nor `0` |
| `Catalogue.Selected` | RandomVideo.py:98-116 | the result holds only listed, suitable files; a negative truthy cap gives nothing, and a non-negative one gives `min(cap, number of suitable files)` files |
| `Catalogue.SelectedProperties` | RandomVideo.py:85-116 | every returned file is a listed name with a video extension and a successful probe of at least `min_interval`; failed probes are absent; order is kept; a truthy cap bounds the count; without a cap every suitable file is returned |
| `Catalogue.SelectedIsPrefixOfFilter` | RandomVideo.py:99-100 | the capped result is a prefix of the uncapped one |
| `Catalogue.SelectedDistinct` | RandomVideo.py:85-116 | distinct directory entries give a catalogue without repeats |
| `Catalogue.GetMovieFiles` | RandomVideo.py:98-116 | the loop returns the first `max_videos` suitable files (all of them without a cap), and its three dictionaries are keyed by exactly those files and hold their probed duration, fps and size |
| `Player.MoviePlayer.constructor` | RandomVideo.py:74-82 | the player starts at index 0 of a reordering of the catalogue, with the catalogue's dictionaries |
| `Player.MoviePlayer.Create` | RandomVideo.py:62-82 | an empty catalogue is refused (`ValueError`); otherwise the player keeps the interval, fps and cap arguments, holds the catalogue's files with their probed duration, fps and size, and starts at the head of the shuffled playlist |
| `Player.MoviePlayer.NextFile` | RandomVideo.py:171-177 | the cursor stays in `[0, len(playlist)]`; it reshuffles (same multiset, index reset) only when exhausted; it returns the file under the cursor, which is always catalogued, and extends the current pass by that file |
| `Player.MoviePlayer.SegmentFor` | RandomVideo.py:191-202 | for a catalogued file the play duration is always drawn, never the whole-clip fallback, lies in `[min_interval, max_interval]` and does not exceed the clip, and the window starts at or after 0 and ends at or before the clip's end |
| `Player.PassPlaysEachOnce` | RandomVideo.py:171-177 | with distinct files, no file is handed out twice within a pass, and a completed pass has handed out each file exactly once |
| `Playback.React` | RandomVideo.py:232-240 | the end marker ends the segment; an empty queue re-raises the loader's error when there is one and otherwise ends the segment early; a frame goes on to event handling |
| `Playback.EventEffect` | RandomVideo.py:281-292 | window close and `q` exit the program, `s` skips the segment, anything else decides nothing |
| `Playback.HandleEvents` | RandomVideo.py:280-293 | the scan returns the effect of the first decisive event, and `Continue` exactly when no event is decisive |
| `Playback.ScanFirstDecisive` | RandomVideo.py:281-290 | the first decisive event decides the scan |
| `Playback.ScanAllQuiet` | RandomVideo.py:281-293 | a batch with no decisive event lets playback go on |
| `Playback.ScanAppend` | RandomVideo.py:281-293 | events after a decisive one are never looked at |
| `Playback.WithoutResizes` | RandomVideo.py:291-292 | keeps exactly the events that are not resizes |
| `Playback.ResizesNeverDecide` | RandomVideo.py:291-292 | resize events never change what the scan decides |
| `Playback.StepOf` | RandomVideo.py:232-275 | the end marker gives `Finished`; an empty queue gives `Failed` with the loader's error when one is recorded and `Stalled` otherwise; on a frame, `s` gives `Skipped` and quit or `q` gives `Exited`; the loop goes on exactly on a frame with no decisive event, and a frame counts as shown exactly when drawing it went through |
| `Playback.PlayFrames` | RandomVideo.py:225-278 | the loop ends as the first iteration that leaves decides, and has shown the frames drawn before it |
| `Playback.PlayAppend` | RandomVideo.py:225-278 | once the loop has left, later iterations change nothing; until then, the frames shown accumulate |
| `Playback.FailureComesFromLoader` | RandomVideo.py:236-238 | a segment fails only with an error the loader recorded, seen when the queue ran empty |
| `Playback.ShownFramesWereReceived` | RandomVideo.py:232-275 | every frame shown was received from the queue, and no more frames are shown than iterations run |
| `Playback.ResizesNeverChangePlayback` | RandomVideo.py:242-243 | resize events pending at any iteration never change how the segment plays |
| `Loader.FeedFrom` | RandomVideo.py:30-39 | placed frame indices are strictly increasing, before the first stop check that sees the flag, and only of frames whose `put` was accepted |
| `Loader.Items` | RandomVideo.py:35 | the queue items are the frames at the placed indices, in that order |
| `Loader.FeedFrames` | RandomVideo.py:30-43 | the loop puts exactly the frames the specification places, and reports whether it ran to the decoder's end |
| `Loader.ItemsAppend` | RandomVideo.py:35 | placing one more frame appends its item |
| `Loader.UnhinderedStep` | RandomVideo.py:31-38 | the stop flag goes unseen from frame `i` on exactly when it goes unseen at frame `i` and from `i + 1` on |
| `Loader.FrameLoader.constructor` | RandomVideo.py:11-22 | a new loader has no stop request, no clip and no error |
| `Loader.FrameLoader.Stop` | RandomVideo.py:56-59 | the stop flag is set, an opened clip is closed, and a second call changes nothing |
| `Loader.FrameLoader.Run` | RandomVideo.py:24-54 | a failed open records its error and places nothing but the end marker; otherwise the loop places the specified frames, the error is recorded only when the decoder raised and the loop reached that point, the clip ends closed, and the end-marker `put` is attempted exactly once on every path, its item last when accepted |
| `Loader.ExhaustedExactlyWhenUnhindered` | RandomVideo.py:30-46 | the loop reaches the decoder's end, where a failing decoder raises and the error is recorded, exactly when the stop flag is never seen |
| `Loader.EveryFramePlacedWhenUnhindered` | RandomVideo.py:30-39 | with no stop and every `put` accepted, all decoded frames are placed in order and the decoder's end is reached, so a decoder failing after N frames leaves exactly N frames |
| `Loader.PlacedExactlyTheAcceptedFrames` | RandomVideo.py:30-39 | a frame is placed exactly when its `put` was accepted and the loop reached it without seeing the flag, so a frame whose `put` timed out is dropped, not retried |
| `Loader.PlacedFramesInOrder` | RandomVideo.py:30-39 | the placed frames are an in-order subsequence of the decoded frames, none at or after the stop |
| `Loader.IncreasingBounded` | RandomVideo.py:30-39 | strictly increasing indices below `n` number at most `n`, so no more frames are placed than decoded |

## Left out

- Threads: starting the loader, `join(timeout=1)`, and the stop flag being set from another thread. The stop flag at each check is an input (`stopFrom`, and the flag carried by each `queue.Full`).
- The throttle of lines 41-43 (sleep while the queue holds at least `preload_size` frames): on its own it only waits for a concurrent consumer, so it is not modelled.
- The bounded queue itself, its capacity of 240 and the `put`/`get` timeouts. The outcome of each `put` and `get` is an input, so the bound "never more than 240 items" is not stated.
- Wall-clock pacing: `frame_time`, `next_frame_time`, the sleeps, `elapsed_time` and its label (lines 218-230, 277-278, 296) are floating-point time.
- `calculate_window_size` and `calculate_display_size`: float scaling and truncation plus pygame screen queries. A model over real numbers would not match float rounding.
- pygame: initialisation, fonts, surfaces, blitting, `display.flip`, `set_mode` (including the one on resize, which only rebinds a local variable), and the rest of `_update_display_info` apart from the total label.
- moviepy: opening, `subclip`, `set_fps` and `iter_frames` become the `Source` input. The probe becomes the `probe` input. `int(clip.duration)` truncation is left out because durations arrive as integers.
- `os.listdir`, `os.path.join`, `os.path.getsize` and `basename`. File paths are the listed names themselves.
- `print`, CLI parsing (`int()` of the arguments), and the `KeyboardInterrupt` and `sys.exit` plumbing. The `Exit` outcome stands for `sys.exit()`.
- The unbounded `while True` of `play_playlist`, and its `except Exception: continue`. One turn of it is `NextFile` followed by `SegmentFor`, and each turn is independent of the segment's outcome.
- Catalogue.Lower: ASCII case folding only. Python's `str.lower` also lowers non-ASCII letters.
- Loader.FrameLoader.Run: the stop flag it reads is the `stopFrom` input, tied to the `stopRequested` field only when stop was requested before the run. The two run on different threads.
- Playback.PlayFrames: the loop's iterations are a finite input. `StillPlaying` stands for "not finished after these iterations".

## Behaviour a reader might expect that the code does not have

The model follows the code in each case.

- A producer might be expected to retry a `put` on a full queue. The code drops that frame and moves on to the next (line 39).
- A segment might be expected to satisfy `start < end`. The code can produce `start == end` when `min_interval` is 0, and `start > end` when `min_interval` is negative (see Findings).
- A cancelled producer might be expected to end without an error. In the code, `stop()` closes the clip while `run` may still be decoding, so the decoder can raise and `error` can be set. The model lets the decoder's failure be any input.

## Findings

| source | as written | input that shows it | evidently intended | confidence | as-written member | corrected member |
|---|---|---|---|---|---|---|
| RandomVideo.py:325-331 | `main` never checks that `min_interval` is non-negative | arguments `dir -5 60`, a 100-second clip, picks `play_duration = -5` and `start_time = 105`: the window is `[105, 100)` | refuse a negative `min_interval` as `max_videos <= 0` is refused, so every window lies inside the clip | low — not executed | `Arguments.NegativeMinIntervalGivesBackwardWindow` | `Arguments.CorrectedArgumentsGiveWindowsInsideClip` |
