/**
 * `FrameLoader`, the producer thread of one segment: it decodes the segment's
 * frames and puts them on the bounded frame queue, dropping a frame when the
 * queue stays full for a second, leaving as soon as it sees the stop flag,
 * recording a decoding error in `self.error`, and always trying to put the
 * `None` end marker last.
 *
 * Threads and time are taken out. The decoder's output, the stop flag at each
 * check and the fate of each `put` are inputs: `stopFrom` is the first frame
 * whose stop check sees the flag set (the flag is never cleared), and `puts[i]`
 * says whether frame `i` went on the queue or timed out with `queue.Full`, and
 * in that case whether the flag was set by then.
 */
module Loader {

  import opened Wrappers

  /** What opening and decoding the clip yields: either `VideoFileClip` raised,
      or the clip opened and `iter_frames` produced `frames` and then either
      ended or raised `failure`. */
  datatype Source<F, E> = OpenFailed(openError: E) | Opened(frames: seq<F>, failure: Option<E>)

  /** The fate of one `frame_queue.put(frame, timeout=1)`. */
  datatype PutOutcome = Accepted | Full(stopSeen: bool)

  /** What the loader places on the queue: a frame, or the `None` end marker. */
  datatype Item<F> = FrameItem(frame: F) | EndMarker

  /** `self.clip`: never opened (`None`), open, or closed. */
  datatype ClipState = NoClip | ClipOpen | ClipClosed

  /** The frame loop from frame `i` on: which frames go on the queue, and
      whether the loop ran to the decoder's end (asking it for one frame more,
      which is where a failing decoder raises) rather than leaving by `break`. */
  datatype Feed = Feed(placed: seq<nat>, exhausted: bool)

  /** Lines 30-39 as a specification over frame indices `i .. n - 1`. */
  function FeedFrom(n: nat, stopFrom: nat, puts: seq<PutOutcome>, i: nat): (r: Feed)
    requires |puts| == n && i <= n
    ensures forall k :: 0 <= k < |r.placed| ==> i <= r.placed[k] < n && r.placed[k] < stopFrom
    ensures forall k :: 0 <= k < |r.placed| ==> puts[r.placed[k]] == Accepted
    ensures forall k, l :: 0 <= k < l < |r.placed| ==> r.placed[k] < r.placed[l]
    decreases n - i
  {
    if i == n then Feed([], true)
    else if i >= stopFrom then Feed([], false)
    else match puts[i]
      case Accepted =>
        var rest := FeedFrom(n, stopFrom, puts, i + 1);
        Feed([i] + rest.placed, rest.exhausted)
      case Full(stopSeen) =>
        if stopSeen then Feed([], false) else FeedFrom(n, stopFrom, puts, i + 1)
  }

  /** The frames at the given indices, as queue items. */
  function Items<F>(frames: seq<F>, indices: seq<nat>): (r: seq<Item<F>>)
    requires forall k :: 0 <= k < |indices| ==> indices[k] < |frames|
    ensures |r| == |indices|
    ensures forall k :: 0 <= k < |r| ==> r[k] == FrameItem(frames[indices[k]])
  {
    if indices == [] then [] else [FrameItem(frames[indices[0]])] + Items(frames, indices[1..])
  }

  /** Between frames `from` and `to` the stop flag is never seen, neither at a
      frame's check nor after a full queue. */
  predicate Unhindered(stopFrom: nat, puts: seq<PutOutcome>, from: nat, to: nat)
    requires to <= |puts|
  {
    forall k :: from <= k < to ==> puts[k] != Full(true) && k < stopFrom
  }

  /** The loop of lines 30-43 on its own: put each decoded frame on the queue. */
  method FeedFrames<F>(frames: seq<F>, stopFrom: nat, puts: seq<PutOutcome>)
    returns (placed: seq<Item<F>>, exhausted: bool)
    requires |puts| == |frames|
    ensures var feed := FeedFrom(|frames|, stopFrom, puts, 0);
            placed == Items(frames, feed.placed) && exhausted == feed.exhausted
  {
    var n := |frames|;
    placed := [];
    ghost var whole := FeedFrom(n, stopFrom, puts, 0);
    ghost var sent: seq<nat> := [];
    var i := 0;
    while i < n
      invariant 0 <= i <= n
      invariant forall k :: 0 <= k < |sent| ==> sent[k] < i
      invariant placed == Items(frames, sent)
      invariant whole.placed == sent + FeedFrom(n, stopFrom, puts, i).placed
      invariant whole.exhausted == FeedFrom(n, stopFrom, puts, i).exhausted
    {
      if i >= stopFrom {
        assert FeedFrom(n, stopFrom, puts, i) == Feed([], false);
        assert sent + [] == sent;
        return placed, false;
      }
      ghost var next := FeedFrom(n, stopFrom, puts, i + 1);
      match puts[i] {
        case Accepted =>
          assert FeedFrom(n, stopFrom, puts, i) == Feed([i] + next.placed, next.exhausted);
          assert sent + ([i] + next.placed) == (sent + [i]) + next.placed;
          ItemsAppend(frames, sent, i);
          placed := placed + [FrameItem(frames[i])];
          sent := sent + [i];
        case Full(stopSeen) =>
          if stopSeen {
            assert FeedFrom(n, stopFrom, puts, i) == Feed([], false);
            assert sent + [] == sent;
            return placed, false;
          }
          assert FeedFrom(n, stopFrom, puts, i) == next;
      }
      i := i + 1;
    }
    assert FeedFrom(n, stopFrom, puts, i) == Feed([], true);
    assert sent + [] == sent;
    exhausted := true;
  }

  lemma {:induction false} ItemsAppend<F>(frames: seq<F>, indices: seq<nat>, i: nat)
    requires forall k :: 0 <= k < |indices| ==> indices[k] < |frames|
    requires i < |frames|
    ensures Items(frames, indices + [i]) == Items(frames, indices) + [FrameItem(frames[i])]
  {
  }

  class FrameLoader<F, E> {
    var stopRequested: bool
    var clip: ClipState
    var error: Option<E>

    /** Lines 11-22. */
    constructor ()
      ensures !stopRequested && clip == NoClip && error == None
    {
      stopRequested := false;
      clip := NoClip;
      error := None;
    }

    /** `stop` (lines 56-59): set the flag and close the clip if there is one;
        calling it again changes nothing. */
    method Stop()
      modifies this`stopRequested, this`clip
      ensures stopRequested
      ensures clip == if old(clip) == NoClip then NoClip else ClipClosed
    {
      stopRequested := true;
      if clip != NoClip {
        clip := ClipClosed;
      }
    }

    /** `run` (lines 24-54). `placed` is what this loader put on the queue, in
        order; `markerAttempts` counts the `put(None)` calls. */
    method Run(source: Source<F, E>, stopFrom: nat, puts: seq<PutOutcome>, markerAccepted: bool)
      returns (placed: seq<Item<F>>, markerAttempts: nat)
      requires source.Opened? ==> |puts| == |source.frames|
      requires stopRequested ==> stopFrom == 0
      modifies this`clip, this`error
      ensures markerAttempts == 1
      ensures source.OpenFailed? ==>
                && error == Some(source.openError) && clip == old(clip)
                && placed == (if markerAccepted then [EndMarker] else [])
      ensures source.Opened? ==>
                var n := |source.frames|;
                var feed := FeedFrom(n, stopFrom, puts, 0);
                && clip == ClipClosed
                && placed == Items(source.frames, feed.placed) + (if markerAccepted then [EndMarker] else [])
                && error == (if feed.exhausted && source.failure.Some? then source.failure else old(error))
    {
      placed := [];
      match source {
        case OpenFailed(e) =>
          error := Some(e);
        case Opened(frames, failure) =>
          clip := ClipOpen;
          var exhausted;
          placed, exhausted := FeedFrames(frames, stopFrom, puts);
          if exhausted && failure.Some? {
            error := failure;
          }
          clip := ClipClosed;
      }
      markerAttempts := 1;
      if markerAccepted {
        placed := placed + [EndMarker];
      }
    }
  }

  // ---------------------------------------------------------------------------
  // What the frame loop promises

  /** The loop reaches the decoder's end, which is where a failing decoder
      raises and the error is recorded, exactly when the stop flag is never seen. */
  lemma {:induction false} ExhaustedExactlyWhenUnhindered(n: nat, stopFrom: nat, puts: seq<PutOutcome>, i: nat)
    requires |puts| == n && i <= n
    ensures FeedFrom(n, stopFrom, puts, i).exhausted <==> Unhindered(stopFrom, puts, i, n)
    decreases n - i
  {
    if i < n {
      UnhinderedStep(stopFrom, puts, i, n);
      if i < stopFrom && puts[i] != Full(true) {
        ExhaustedExactlyWhenUnhindered(n, stopFrom, puts, i + 1);
      }
    }
  }

  lemma UnhinderedStep(stopFrom: nat, puts: seq<PutOutcome>, i: nat, n: nat)
    requires i < n <= |puts|
    ensures Unhindered(stopFrom, puts, i, n) <==>
              puts[i] != Full(true) && i < stopFrom && Unhindered(stopFrom, puts, i + 1, n)
  {
    if Unhindered(stopFrom, puts, i, n) {
      assert puts[i] != Full(true) && i < stopFrom;
      assert Unhindered(stopFrom, puts, i + 1, n);
    }
    if puts[i] != Full(true) && i < stopFrom && Unhindered(stopFrom, puts, i + 1, n) {
      assert Unhindered(stopFrom, puts, i, n);
    }
  }

  /** Without a stop and with room on the queue, every decoded frame is placed,
      in order: a decoder that fails after `n` frames leaves exactly those `n`
      frames on the queue and the loop reaches the failure. */
  lemma {:induction false} EveryFramePlacedWhenUnhindered(n: nat, stopFrom: nat, puts: seq<PutOutcome>, i: nat)
    requires |puts| == n && i <= n && n <= stopFrom
    requires forall k :: i <= k < n ==> puts[k] == Accepted
    ensures |FeedFrom(n, stopFrom, puts, i).placed| == n - i
    ensures forall k :: 0 <= k < n - i ==> FeedFrom(n, stopFrom, puts, i).placed[k] == i + k
    ensures FeedFrom(n, stopFrom, puts, i).exhausted
    decreases n - i
  {
    if i < n {
      EveryFramePlacedWhenUnhindered(n, stopFrom, puts, i + 1);
    }
  }

  /** A frame is placed exactly when its `put` went through and the loop got
      that far: a frame whose `put` timed out is dropped, not retried, and
      nothing is placed once the flag has been seen. */
  lemma {:induction false} PlacedExactlyTheAcceptedFrames(n: nat, stopFrom: nat, puts: seq<PutOutcome>, i: nat, k: nat)
    requires |puts| == n && i <= k < n
    ensures k in FeedFrom(n, stopFrom, puts, i).placed <==>
              puts[k] == Accepted && k < stopFrom && Unhindered(stopFrom, puts, i, k)
    decreases n - i
  {
    if i < k {
      UnhinderedStep(stopFrom, puts, i, k);
      if i < stopFrom && puts[i] != Full(true) {
        PlacedExactlyTheAcceptedFrames(n, stopFrom, puts, i + 1, k);
      }
    }
  }

  /** Placed frames form an in-order subsequence of the decoded frames, none of
      them at or after the first stop check that saw the flag. */
  lemma PlacedFramesInOrder<F>(frames: seq<F>, stopFrom: nat, puts: seq<PutOutcome>)
    requires |puts| == |frames|
    ensures var feed := FeedFrom(|frames|, stopFrom, puts, 0);
            var items := Items(frames, feed.placed);
            && |items| <= |frames|
            && (forall k :: 0 <= k < |items| ==>
                  feed.placed[k] < stopFrom && items[k] == FrameItem(frames[feed.placed[k]]))
            && (forall k, l :: 0 <= k < l < |items| ==> feed.placed[k] < feed.placed[l])
  {
    var feed := FeedFrom(|frames|, stopFrom, puts, 0);
    IncreasingBounded(feed.placed, |frames|);
  }

  lemma {:induction false} IncreasingBounded(s: seq<nat>, n: nat)
    requires forall k :: 0 <= k < |s| ==> s[k] < n
    requires forall k, l :: 0 <= k < l < |s| ==> s[k] < s[l]
    ensures |s| <= n
  {
    if s != [] {
      var m := s[|s| - 1];
      IncreasingBounded(s[..|s| - 1], m);
    }
  }
}
