/**
 * `MoviePlayer.get_movie_files`: which files of the directory become the
 * catalogue, and the three dictionaries of probed metadata.
 *
 * The directory listing, the shuffle and the probe (`VideoFileClip`) are inputs:
 * `names` is what `os.listdir` returned, `shuffled` any reordering of the
 * candidates, and `probe(f)` the integer duration, fps and size of `f`, or
 * `None` when opening it raised.
 */
module Catalogue {

  import opened Wrappers

  /** What the probe of one file reports: `int(clip.duration)`, `clip.fps`, `clip.size`. */
  datatype Metadata = Metadata(duration: int, fps: real, size: (int, int))

  type Probe = string -> Option<Metadata>

  // ---------------------------------------------------------------------------
  // The suffix test of lines 85-88

  /** ASCII `str.lower()` of one character. */
  function LowerChar(c: char): (r: char)
    ensures 'A' <= c <= 'Z' ==> r as int == c as int + 32
    ensures !('A' <= c <= 'Z') ==> r == c
  {
    if 'A' <= c <= 'Z' then (c as int + 32) as char else c
  }

  function Lower(s: string): (r: string)
    ensures |r| == |s|
    ensures forall i :: 0 <= i < |s| ==> r[i] == LowerChar(s[i])
  {
    if s == [] then [] else [LowerChar(s[0])] + Lower(s[1..])
  }

  predicate EndsWith(s: string, suffix: string) {
    |suffix| <= |s| && s[|s| - |suffix|..] == suffix
  }

  const Extensions: seq<string> := [".mov", ".mp4", ".avi", ".mkv"]

  /** `s.endswith(suffixes)` for a tuple of suffixes: any one of them matches. */
  predicate EndsWithAny(s: string, suffixes: seq<string>) {
    suffixes != [] && (EndsWith(s, suffixes[0]) || EndsWithAny(s, suffixes[1..]))
  }

  /** `f.lower().endswith((".mov", ".mp4", ".avi", ".mkv"))` */
  predicate HasVideoExtension(name: string): (b: bool)
    ensures b <==> 4 <= |name| && Lower(name)[|name| - 4..] in Extensions
  {
    EndsWithExtensionIsLastFour(Lower(name));
    EndsWithAny(Lower(name), Extensions)
  }

  lemma LowerIdempotent(s: string)
    ensures Lower(Lower(s)) == Lower(s)
  {
  }

  /** The suffix test ignores ASCII case, and it is a test on the last four
      characters alone: a name passes exactly when they read, in lower case, as
      one of the four extensions. */
  lemma HasVideoExtensionIgnoresCase(name: string)
    ensures HasVideoExtension(name) <==> HasVideoExtension(Lower(name))
  {
    LowerIdempotent(name);
  }

  lemma {:induction false} EndsWithAnyOfLength(s: string, suffixes: seq<string>, n: nat)
    requires forall k :: 0 <= k < |suffixes| ==> |suffixes[k]| == n
    ensures EndsWithAny(s, suffixes) <==> n <= |s| && s[|s| - n..] in suffixes
  {
    if suffixes != [] {
      EndsWithAnyOfLength(s, suffixes[1..], n);
      assert suffixes == [suffixes[0]] + suffixes[1..];
    }
  }

  lemma {:induction false} EndsWithExtensionIsLastFour(s: string)
    ensures EndsWithAny(s, Extensions) <==> |s| >= 4 && s[|s| - 4..] in Extensions
  {
    EndsWithAnyOfLength(s, Extensions, 4);
  }

  lemma {:induction false} HasVideoExtensionIsLastFour(name: string)
    ensures HasVideoExtension(name) <==>
              |name| >= 4 && Lower(name)[|name| - 4..] in Extensions
  {
    EndsWithExtensionIsLastFour(Lower(name));
  }

  /** The list comprehension of lines 85-88 (paths are the names themselves). */
  function Candidates(names: seq<string>): (r: seq<string>)
    ensures forall f :: f in r <==> f in names && HasVideoExtension(f)
    ensures |r| <= |names|
  {
    if names == [] then []
    else (if HasVideoExtension(names[0]) then [names[0]] else []) + Candidates(names[1..])
  }

  // ---------------------------------------------------------------------------
  // The probing loop of lines 98-116, as a specification

  /** A file is kept when its probe succeeded and its duration is at least `min_interval`. */
  predicate Suitable(probe: Probe, minInterval: int, f: string) {
    probe(f).Some? && probe(f).value.duration >= minInterval
  }

  /** The suitable files of `files`, in their order, with no cap. */
  function Filter(files: seq<string>, probe: Probe, minInterval: int): (r: seq<string>)
    ensures |r| <= |files|
    ensures forall f :: f in r <==> f in files && Suitable(probe, minInterval, f)
  {
    if files == [] then []
    else
      (if Suitable(probe, minInterval, files[0]) then [files[0]] else [])
      + Filter(files[1..], probe, minInterval)
  }

  /** Python truthiness of `self.max_videos`: `None` and `0` mean "no cap". */
  predicate Capped(maxVideos: Option<int>): (b: bool)
    ensures maxVideos.None? ==> !b
    ensures maxVideos == Some(0) ==> !b
    ensures maxVideos.Some? && maxVideos.value != 0 ==> b
  {
    maxVideos.Some? && maxVideos.value != 0
  }

  /** What the loop returns: the first `max_videos` suitable files when the cap
      is truthy (none at all for a negative cap), every suitable file otherwise. */
  function Selected(files: seq<string>, probe: Probe, minInterval: int, maxVideos: Option<int>): (r: seq<string>)
    ensures forall f :: f in r ==> f in files && Suitable(probe, minInterval, f)
    ensures Capped(maxVideos) && maxVideos.value < 0 ==> r == []
    ensures Capped(maxVideos) && 0 <= maxVideos.value ==>
              |r| == if |Filter(files, probe, minInterval)| <= maxVideos.value
                     then |Filter(files, probe, minInterval)| else maxVideos.value
  {
    var all := Filter(files, probe, minInterval);
    if !Capped(maxVideos) then all
    else if maxVideos.value < 0 then []
    else if |all| <= maxVideos.value then all
    else all[..maxVideos.value]
  }

  /** `files` appears, in order, inside `of` (not necessarily contiguously). */
  predicate IsSubsequence(files: seq<string>, of: seq<string>)
    decreases |of|
  {
    if files == [] then true
    else if of == [] then false
    else if files[0] == of[0] then IsSubsequence(files[1..], of[1..])
    else IsSubsequence(files, of[1..])
  }

  // ---------------------------------------------------------------------------
  // Lemmas about the specification

  lemma {:induction false} FilterAppend(a: seq<string>, b: seq<string>, probe: Probe, minInterval: int)
    ensures Filter(a + b, probe, minInterval) == Filter(a, probe, minInterval) + Filter(b, probe, minInterval)
  {
    if a != [] {
      assert (a + b)[0] == a[0];
      assert (a + b)[1..] == a[1..] + b;
      FilterAppend(a[1..], b, probe, minInterval);
    } else {
      assert a + b == b;
    }
  }

  lemma {:induction false} FilterIsSubsequence(files: seq<string>, probe: Probe, minInterval: int)
    ensures IsSubsequence(Filter(files, probe, minInterval), files)
  {
    if files != [] {
      FilterIsSubsequence(files[1..], probe, minInterval);
      var rest := Filter(files[1..], probe, minInterval);
      if !Suitable(probe, minInterval, files[0]) {
        assert Filter(files, probe, minInterval) == rest;
        SkipFirstKeepsSubsequence(rest, files);
      } else {
        assert Filter(files, probe, minInterval) == [files[0]] + rest;
      }
    }
  }

  lemma {:induction false} SkipFirstKeepsSubsequence(sub: seq<string>, files: seq<string>)
    requires files != [] && IsSubsequence(sub, files[1..])
    ensures IsSubsequence(sub, files)
    decreases |files|, 0
  {
    if sub != [] && sub[0] == files[0] {
      DropFirstKeepsSubsequence(sub, files[1..]);
    }
  }

  lemma {:induction false} DropFirstKeepsSubsequence(sub: seq<string>, files: seq<string>)
    requires sub != [] && IsSubsequence(sub, files)
    ensures IsSubsequence(sub[1..], files)
    decreases |files|, 1
  {
    assert files != [];
    if sub[0] != files[0] {
      DropFirstKeepsSubsequence(sub, files[1..]);
    }
    SkipFirstKeepsSubsequence(sub[1..], files);
  }

  lemma {:induction false} PrefixKeepsSubsequence(sub: seq<string>, files: seq<string>, n: nat)
    requires n <= |sub| && IsSubsequence(sub, files)
    ensures IsSubsequence(sub[..n], files)
    decreases |files|
  {
    if n > 0 && files != [] {
      if sub[0] == files[0] {
        assert sub[..n][1..] == sub[1..][..n - 1];
        PrefixKeepsSubsequence(sub[1..], files[1..], n - 1);
      } else {
        PrefixKeepsSubsequence(sub, files[1..], n);
      }
    }
  }

  /** Every selected file has a video extension when the candidates were
      shuffled from the listing, was probed successfully, lasts at least
      `min_interval`; files whose probe raised are absent; the selection keeps
      iteration order; a truthy cap bounds its length. */
  lemma SelectedProperties(names: seq<string>, shuffled: seq<string>, probe: Probe, minInterval: int,
                           maxVideos: Option<int>)
    requires multiset(shuffled) == multiset(Candidates(names))
    ensures var r := Selected(shuffled, probe, minInterval, maxVideos);
            && (forall f :: f in r ==> f in names && HasVideoExtension(f))
            && (forall f :: f in r ==> probe(f).Some? && probe(f).value.duration >= minInterval)
            && (forall f :: f in shuffled && probe(f).None? ==> f !in r)
            && IsSubsequence(r, shuffled)
            && (Capped(maxVideos) ==> |r| <= if maxVideos.value < 0 then 0 else maxVideos.value)
            && (!Capped(maxVideos) ==> forall f :: f in r <==> f in shuffled && Suitable(probe, minInterval, f))
  {
    var all := Filter(shuffled, probe, minInterval);
    var r := Selected(shuffled, probe, minInterval, maxVideos);
    forall f | f in r ensures f in all && f in names && HasVideoExtension(f) {
      assert f in all;
      assert f in multiset(shuffled);
    }
    FilterIsSubsequence(shuffled, probe, minInterval);
    if Capped(maxVideos) && 0 <= maxVideos.value < |all| {
      PrefixKeepsSubsequence(all, shuffled, maxVideos.value);
    }
  }

  /** The capped selection is a prefix of the uncapped one, so raising the cap
      only ever adds files at the end. */
  lemma SelectedIsPrefixOfFilter(files: seq<string>, probe: Probe, minInterval: int, maxVideos: Option<int>)
    ensures var r := Selected(files, probe, minInterval, maxVideos);
            var all := Filter(files, probe, minInterval);
            |r| <= |all| && r == all[..|r|]
  {
  }

  /** No file occurs twice. */
  ghost predicate Distinct(files: seq<string>) {
    forall f :: multiset(files)[f] <= 1
  }

  lemma {:induction false} CandidatesShrink(names: seq<string>)
    ensures multiset(Candidates(names)) <= multiset(names)
  {
    if names != [] {
      CandidatesShrink(names[1..]);
      assert names == [names[0]] + names[1..];
    }
  }

  lemma {:induction false} FilterShrinks(files: seq<string>, probe: Probe, minInterval: int)
    ensures multiset(Filter(files, probe, minInterval)) <= multiset(files)
  {
    if files != [] {
      FilterShrinks(files[1..], probe, minInterval);
      assert files == [files[0]] + files[1..];
    }
  }

  /** `os.listdir` never names a file twice, and neither does the catalogue. */
  lemma SelectedDistinct(names: seq<string>, shuffled: seq<string>, probe: Probe, minInterval: int,
                         maxVideos: Option<int>)
    requires Distinct(names)
    requires multiset(shuffled) == multiset(Candidates(names))
    ensures Distinct(Selected(shuffled, probe, minInterval, maxVideos))
  {
    CandidatesShrink(names);
    var all := Filter(shuffled, probe, minInterval);
    FilterShrinks(shuffled, probe, minInterval);
    var r := Selected(shuffled, probe, minInterval, maxVideos);
    SelectedIsPrefixOfFilter(shuffled, probe, minInterval, maxVideos);
    assert all == r + all[|r|..];
    assert multiset(r) <= multiset(all);
  }

  // ---------------------------------------------------------------------------
  // The loop itself

  datatype Catalogue = Catalogue(
    files: seq<string>,
    durations: map<string, int>,
    fps: map<string, real>,
    sizes: map<string, (int, int)>)

  /** The three dictionaries are keyed by exactly the listed files and hold
      what the probe reported for each. */
  ghost predicate Describes(files: seq<string>, probe: Probe, c: Catalogue) {
    && (forall f :: f in c.durations <==> f in files)
    && (forall f :: f in c.fps <==> f in files)
    && (forall f :: f in c.sizes <==> f in files)
    && (forall f :: f in c.durations ==>
          && probe(f).Some?
          && c.durations[f] == probe(f).value.duration
          && c.fps[f] == probe(f).value.fps
          && c.sizes[f] == probe(f).value.size)
  }

  /** Lines 98-116 over the already shuffled candidate list. */
  method GetMovieFiles(shuffled: seq<string>, probe: Probe, minInterval: int, maxVideos: Option<int>)
    returns (c: Catalogue)
    ensures c.files == Selected(shuffled, probe, minInterval, maxVideos)
    ensures Describes(c.files, probe, c)
  {
    var suitable: seq<string> := [];
    var durations: map<string, int> := map[];
    var fps: map<string, real> := map[];
    var sizes: map<string, (int, int)> := map[];
    var i := 0;
    while i < |shuffled|
      invariant 0 <= i <= |shuffled|
      invariant suitable == Filter(shuffled[..i], probe, minInterval)
      invariant Capped(maxVideos) && maxVideos.value >= 0 ==> |suitable| <= maxVideos.value
      invariant Capped(maxVideos) && maxVideos.value < 0 ==> i == 0
      invariant Describes(suitable, probe, Catalogue(suitable, durations, fps, sizes))
    {
      if Capped(maxVideos) && |suitable| >= maxVideos.value {
        break;
      }
      var file := shuffled[i];
      assert shuffled[..i + 1] == shuffled[..i] + [file];
      FilterAppend(shuffled[..i], [file], probe, minInterval);
      match probe(file) {
        case None =>
        case Some(clip) =>
          if clip.duration >= minInterval {
            durations := durations[file := clip.duration];
            fps := fps[file := clip.fps];
            sizes := sizes[file := clip.size];
            suitable := suitable + [file];
          }
      }
      i := i + 1;
    }
    FilterAppend(shuffled[..i], shuffled[i..], probe, minInterval);
    assert shuffled[..i] + shuffled[i..] == shuffled;
    c := Catalogue(suitable, durations, fps, sizes);
  }
}
