/**
 * The checks `main` makes on its numeric arguments before building the
 * player (lines 325-331), and what they leave possible for segment selection.
 */
module Arguments {

  import opened Wrappers
  import Segment

  datatype ArgumentError = MaxBelowMin | MaxVideosNotPositive | MinNegative

  /** The checks as the program makes them: `max_interval` must not be below
      `min_interval`, and a given `max_videos` must be positive. */
  function CheckArguments(minInterval: int, maxInterval: int, maxVideos: Option<int>): (r: Result<(), ArgumentError>)
    ensures r.Success? <==> minInterval <= maxInterval && (maxVideos.Some? ==> maxVideos.value > 0)
    ensures r.Failure? && r.error == MaxVideosNotPositive ==> minInterval <= maxInterval
  {
    if maxInterval < minInterval then Failure(MaxBelowMin)
    else if maxVideos.Some? && maxVideos.value <= 0 then Failure(MaxVideosNotPositive)
    else Success(())
  }

  /** The checks with a negative `min_interval` refused as well. */
  function CheckArgumentsCorrected(minInterval: int, maxInterval: int, maxVideos: Option<int>): (r: Result<(), ArgumentError>)
    ensures r.Success? <==> CheckArguments(minInterval, maxInterval, maxVideos).Success? && 0 <= minInterval
  {
    if minInterval < 0 then Failure(MinNegative)
    else CheckArguments(minInterval, maxInterval, maxVideos)
  }

  /** As written, `main` accepts `min_interval = -5`, and a 100-second clip can
      then get `play_duration = -5` and `start_time = 105`: a window that starts
      after the clip ends and ends before it starts. */
  lemma NegativeMinIntervalGivesBackwardWindow()
    ensures CheckArguments(-5, 60, None).Success?
    ensures Segment.ValidPicks(100, -5, 60, -5, 105)
    ensures var w := Segment.Select(100, -5, 60, -5, 105);
            w.play < 0 && w.end < w.start && 100 < w.start
  {
  }

  /** Once a negative `min_interval` is refused, every window lies inside the
      clip, starts no later than it ends, and has the drawn length. */
  lemma CorrectedArgumentsGiveWindowsInsideClip(minInterval: int, maxInterval: int, maxVideos: Option<int>,
                                                 duration: int, playPick: int, startPick: int)
    requires CheckArgumentsCorrected(minInterval, maxInterval, maxVideos).Success?
    requires 0 <= duration
    requires Segment.ValidPicks(duration, minInterval, maxInterval, playPick, startPick)
    ensures var w := Segment.Select(duration, minInterval, maxInterval, playPick, startPick);
            0 <= w.play && 0 <= w.start <= w.end <= duration
  {
  }
}
