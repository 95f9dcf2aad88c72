/**
 * `MoviePlayer`: the catalogue it is built from, the start-up check that at
 * least one file is suitable, and the playlist cursor of `play_playlist`,
 * which hands out the files of a shuffled playlist one by one and reshuffles
 * when it runs off the end.
 *
 * Each `random.shuffle` is an order supplied by the caller, required to be a
 * permutation of what is being shuffled.
 */
module Player {

  import opened Wrappers
  import Segment
  import Catalogue

  datatype InitError = NoSuitableFiles

  class MoviePlayer {
    const minInterval: int
    const maxInterval: int
    const targetFps: int
    const maxVideos: Option<int>
    const movieFiles: seq<string>
    const movieDurations: map<string, int>
    const movieFps: map<string, real>
    const movieSizes: map<string, (int, int)>

    var playlist: seq<string>
    var currentIndex: int

    /** The catalogue is non-empty, every catalogued file has metadata and is
        long enough, the playlist is a reordering of the catalogue and the
        cursor stays within it (one past the end meaning "exhausted"). */
    ghost predicate Valid()
      reads this
    {
      && minInterval <= maxInterval
      && movieFiles != []
      && (forall f :: f in movieFiles ==>
            f in movieDurations && f in movieFps && f in movieSizes && movieDurations[f] >= minInterval)
      && multiset(playlist) == multiset(movieFiles)
      && 0 <= currentIndex <= |playlist|
    }

    /** The files already handed out since the last shuffle. */
    ghost function PlayedThisPass(): seq<string>
      reads this
      requires Valid()
    {
      playlist[..currentIndex]
    }

    /** Lines 74 and 80-82, once the catalogue is known to be non-empty. */
    constructor (minInterval: int, maxInterval: int, targetFps: int, maxVideos: Option<int>,
                 catalogue: Catalogue.Catalogue, order: seq<string>)
      requires minInterval <= maxInterval
      requires catalogue.files != []
      requires forall f :: f in catalogue.files ==>
                 f in catalogue.durations && f in catalogue.fps && f in catalogue.sizes
                 && catalogue.durations[f] >= minInterval
      requires multiset(order) == multiset(catalogue.files)
      ensures Valid()
      ensures this.minInterval == minInterval && this.maxInterval == maxInterval
      ensures this.targetFps == targetFps && this.maxVideos == maxVideos
      ensures movieFiles == catalogue.files && movieDurations == catalogue.durations
      ensures movieFps == catalogue.fps && movieSizes == catalogue.sizes
      ensures playlist == order && currentIndex == 0
    {
      this.minInterval := minInterval;
      this.maxInterval := maxInterval;
      this.targetFps := targetFps;
      this.maxVideos := maxVideos;
      movieFiles := catalogue.files;
      movieDurations := catalogue.durations;
      movieFps := catalogue.fps;
      movieSizes := catalogue.sizes;
      playlist := order;
      currentIndex := 0;
    }

    /** `MoviePlayer.__init__` (lines 62-82): build the catalogue from the
        shuffled candidates, refuse an empty one with `ValueError`, and start
        at the head of a shuffled playlist. */
    static method Create(minInterval: int, maxInterval: int, targetFps: int, maxVideos: Option<int>,
                         shuffled: seq<string>, probe: Catalogue.Probe, order: seq<string>)
      returns (r: Result<MoviePlayer, InitError>)
      requires minInterval <= maxInterval
      requires multiset(order) == multiset(Catalogue.Selected(shuffled, probe, minInterval, maxVideos))
      ensures r.Failure? <==> Catalogue.Selected(shuffled, probe, minInterval, maxVideos) == []
      ensures r.Success? ==>
                && fresh(r.value) && r.value.Valid()
                && r.value.minInterval == minInterval && r.value.maxInterval == maxInterval
                && r.value.targetFps == targetFps && r.value.maxVideos == maxVideos
                && r.value.movieFiles == Catalogue.Selected(shuffled, probe, minInterval, maxVideos)
                && Catalogue.Describes(r.value.movieFiles, probe,
                     Catalogue.Catalogue(r.value.movieFiles, r.value.movieDurations, r.value.movieFps, r.value.movieSizes))
                && r.value.playlist == order && r.value.currentIndex == 0
    {
      var catalogue := Catalogue.GetMovieFiles(shuffled, probe, minInterval, maxVideos);
      if catalogue.files == [] {
        return Failure(NoSuitableFiles);
      }
      forall f | f in catalogue.files
        ensures f in catalogue.durations && catalogue.durations[f] >= minInterval
      {
        assert f in Catalogue.Filter(shuffled, probe, minInterval);
      }
      var p := new MoviePlayer(minInterval, maxInterval, targetFps, maxVideos, catalogue, order);
      return Success(p);
    }

    /** One turn of the loop in `play_playlist` (lines 171-177): reshuffle into
        `reshuffled` when the cursor has run off the end, then hand out the file
        under the cursor and advance it. */
    method NextFile(reshuffled: seq<string>) returns (file: string)
      requires Valid()
      requires multiset(reshuffled) == multiset(playlist)
      modifies this`playlist, this`currentIndex
      ensures Valid()
      ensures file in movieFiles
      ensures old(currentIndex) >= |old(playlist)| ==>
                playlist == reshuffled && currentIndex == 1 && file == reshuffled[0]
      ensures old(currentIndex) < |old(playlist)| ==>
                && playlist == old(playlist) && currentIndex == old(currentIndex) + 1
                && file == old(playlist)[old(currentIndex)]
      ensures PlayedThisPass() ==
                if old(currentIndex) >= |old(playlist)| then [file] else old(PlayedThisPass()) + [file]
    {
      if currentIndex >= |playlist| {
        playlist := reshuffled;
        currentIndex := 0;
      }
      assert |playlist| == |movieFiles| by {
        assert |multiset(playlist)| == |multiset(movieFiles)|;
      }
      file := playlist[currentIndex];
      assert file in multiset(playlist);
      currentIndex := currentIndex + 1;
      assert playlist[..currentIndex] == playlist[..currentIndex - 1] + [file];
    }

    /** Lines 191-202: the window played from a catalogued file. Because the
        catalogue only holds files at least `min_interval` long, the play
        duration is always drawn, never the whole-clip fallback. */
    function SegmentFor(file: string, playPick: int, startPick: int): (w: Segment.Window)
      reads this
      requires Valid() && file in movieFiles
      requires Segment.ValidPicks(movieDurations[file], minInterval, maxInterval, playPick, startPick)
      ensures Segment.DrawsPlayDuration(movieDurations[file], minInterval)
      ensures minInterval <= w.play <= maxInterval && w.play <= movieDurations[file]
      ensures 0 <= w.start && w.end == w.start + w.play <= movieDurations[file]
    {
      Segment.Select(movieDurations[file], minInterval, maxInterval, playPick, startPick)
    }
  }

  /** With distinct catalogue files, a pass hands out no file twice, and a
      completed pass has handed out every file exactly once. */
  lemma PassPlaysEachOnce(playlist: seq<string>, movieFiles: seq<string>, played: nat)
    requires multiset(playlist) == multiset(movieFiles)
    requires Catalogue.Distinct(movieFiles)
    requires played <= |playlist|
    ensures forall f :: multiset(playlist[..played])[f] <= 1
    ensures played == |playlist| ==> forall f :: f in movieFiles ==> multiset(playlist[..played])[f] == 1
  {
    assert playlist == playlist[..played] + playlist[played..];
    assert multiset(playlist[..played]) <= multiset(playlist);
    if played == |playlist| {
      assert playlist[..played] == playlist;
    }
  }
}
