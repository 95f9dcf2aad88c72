/**
 * Segment selection of `MoviePlayer._play_single_video`: how long to play,
 * where to start and where to end, inside a clip whose integer duration is known.
 *
 * Each `random.randint(a, b)` of the program is a value `pick` chosen by the
 * caller, whose `requires` says it lies in `[a, b]` exactly when the program
 * would call `randint`.
 */
module Segment {

  function Min(a: int, b: int): int { if a <= b then a else b }

  /** Upper bound handed to the first `randint`: `min(max_interval, duration)`. */
  function PlayUpperBound(duration: int, maxInterval: int): int {
    Min(maxInterval, duration)
  }

  /** Whether a `randint` for the play duration happens at all. */
  predicate DrawsPlayDuration(duration: int, minInterval: int) {
    duration >= minInterval
  }

  /** `play_duration`: a pick in `[min_interval, min(max_interval, duration)]`
      when the clip is long enough, otherwise the whole clip. */
  function PlayDuration(duration: int, minInterval: int, maxInterval: int, pick: int): (play: int)
    requires minInterval <= maxInterval
    requires DrawsPlayDuration(duration, minInterval) ==>
               minInterval <= pick <= PlayUpperBound(duration, maxInterval)
    ensures play <= duration
    ensures play <= maxInterval || play == duration
    ensures duration >= minInterval ==> minInterval <= play <= maxInterval
    ensures duration < minInterval ==> play == duration
  {
    if DrawsPlayDuration(duration, minInterval) then pick else duration
  }

  /** Whether a `randint` for the start time happens at all. */
  predicate DrawsStart(duration: int, play: int) {
    duration > play
  }

  /** `start_time`: a pick in `[0, duration - play_duration]` when there is room,
      otherwise 0. */
  function StartTime(duration: int, play: int, pick: int): (start: int)
    requires play <= duration
    requires DrawsStart(duration, play) ==> 0 <= pick <= duration - play
    ensures 0 <= start <= duration - play
    ensures play == duration ==> start == 0
  {
    if DrawsStart(duration, play) then pick else 0
  }

  /** The window `[start, end)` handed to the frame loader, and the play duration. */
  datatype Window = Window(play: int, start: int, end: int)

  predicate ValidPicks(duration: int, minInterval: int, maxInterval: int, playPick: int, startPick: int)
    requires minInterval <= maxInterval
  {
    && (DrawsPlayDuration(duration, minInterval) ==>
          minInterval <= playPick <= PlayUpperBound(duration, maxInterval))
    && (var play := if DrawsPlayDuration(duration, minInterval) then playPick else duration;
        DrawsStart(duration, play) ==> 0 <= startPick <= duration - play)
  }

  /** Lines 196-202 together: the play duration, then the start, then `end_time`. */
  function Select(duration: int, minInterval: int, maxInterval: int, playPick: int, startPick: int): (w: Window)
    requires minInterval <= maxInterval
    requires ValidPicks(duration, minInterval, maxInterval, playPick, startPick)
    ensures 0 <= w.start && w.end <= duration
    ensures w.end - w.start == w.play
    ensures duration >= minInterval ==> minInterval <= w.play <= PlayUpperBound(duration, maxInterval)
    ensures duration < minInterval ==> w.play == duration && w.start == 0
    ensures w.play == duration ==> w.start == 0
  {
    var play := PlayDuration(duration, minInterval, maxInterval, playPick);
    var start := StartTime(duration, play, startPick);
    Window(play, start, start + play)
  }

  /** Whenever the clip is long enough, the bounds of the first `randint` are
      ordered, so `randint` cannot raise `ValueError`. */
  lemma PlayBoundsOrdered(duration: int, minInterval: int, maxInterval: int)
    requires minInterval <= maxInterval
    requires DrawsPlayDuration(duration, minInterval)
    ensures minInterval <= PlayUpperBound(duration, maxInterval)
  {
  }

  /** With a non-negative `min_interval` and duration, the play duration is
      non-negative too; with a negative `min_interval` (which `main` accepts)
      it can be negative. */
  lemma PlayNonNegative(duration: int, minInterval: int, maxInterval: int, playPick: int, startPick: int)
    requires 0 <= minInterval <= maxInterval && 0 <= duration
    requires ValidPicks(duration, minInterval, maxInterval, playPick, startPick)
    ensures 0 <= Select(duration, minInterval, maxInterval, playPick, startPick).play
    ensures Select(duration, minInterval, maxInterval, playPick, startPick).start
            <= Select(duration, minInterval, maxInterval, playPick, startPick).end
  {
  }

  /** Every window the model can choose is reached by some picks, and every
      pick in range gives a window with exactly that play duration and start:
      the selection loses nothing of the `randint` ranges. */
  lemma SelectReachesEveryWindow(duration: int, minInterval: int, maxInterval: int, play: int, start: int)
    requires minInterval <= maxInterval && minInterval <= duration
    requires minInterval <= play <= PlayUpperBound(duration, maxInterval)
    requires 0 <= start <= duration - play
    ensures ValidPicks(duration, minInterval, maxInterval, play, start)
    ensures Select(duration, minInterval, maxInterval, play, start).start == (if duration > play then start else 0)
    ensures Select(duration, minInterval, maxInterval, play, start).play == play
  {
  }
}
