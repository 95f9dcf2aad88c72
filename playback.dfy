/**
 * The decisions of the consumer loop `MoviePlayer._play_frames` and of
 * `MoviePlayer._handle_events`, with wall-clock pacing and drawing taken out:
 * what one `frame_queue.get` leads to, what the pending window events lead to,
 * and how a segment's playback ends.
 *
 * Frames (`F`) and loader errors (`E`) are opaque. What each `get` returns,
 * whether `loader.error` is set when it times out, which events are pending
 * and whether drawing the frame raised are supplied per iteration.
 */
module Playback {

  import opened Wrappers

  // ---------------------------------------------------------------------------
  // One `frame_queue.get(timeout=1)` (lines 232-240)

  /** A frame, the `None` end marker, or `queue.Empty` after the timeout. */
  datatype Got<F> = GotFrame(frame: F) | GotEndMarker | GotEmpty

  datatype Reaction<F, E> = EndOfVideo | RaiseError(error: E) | QueueStalled | Show(frame: F)

  /** The end marker ends the segment normally; an empty queue re-raises the
      loader's error if it recorded one and otherwise gives up on the segment;
      a frame goes on to event handling and drawing. */
  function React<F, E>(got: Got<F>, loaderError: Option<E>): (r: Reaction<F, E>)
    ensures r.EndOfVideo? <==> got.GotEndMarker?
    ensures r.RaiseError? <==> got.GotEmpty? && loaderError.Some?
    ensures r.RaiseError? ==> r.error == loaderError.value
    ensures r.QueueStalled? <==> got.GotEmpty? && loaderError.None?
    ensures r.Show? <==> got.GotFrame?
    ensures r.Show? ==> r.frame == got.frame
  {
    match got
    case GotEndMarker => EndOfVideo
    case GotEmpty => if loaderError.Some? then RaiseError(loaderError.value) else QueueStalled
    case GotFrame(frame) => Show(frame)
  }

  // ---------------------------------------------------------------------------
  // `_handle_events` (lines 280-293)

  datatype Key = KeyS | KeyQ | OtherKey(code: int)

  datatype Event = Quit | KeyDown(key: Key) | VideoResize(w: int, h: int) | OtherEvent

  /** `Exit` is `pygame.quit(); sys.exit()`, which leaves the whole program;
      `Skip` is `return True`; `Continue` is falling off the loop. */
  datatype EventOutcome = Continue | Skip | Exit

  /** What one event decides on its own: window close and `q` exit, `s`
      skips, everything else (resizes included) lets the scan go on. */
  function EventEffect(e: Event): (o: EventOutcome)
    ensures o == Exit <==> e == Quit || e == KeyDown(KeyQ)
    ensures o == Skip <==> e == KeyDown(KeyS)
  {
    match e
    case Quit => Exit
    case KeyDown(key) => if key == KeyS then Skip else if key == KeyQ then Exit else Continue
    case VideoResize(_, _) => Continue
    case OtherEvent => Continue
  }

  predicate Decisive(e: Event) {
    EventEffect(e) != Continue
  }

  /** The outcome of scanning `events` in order: the first decisive event wins. */
  function Scan(events: seq<Event>): EventOutcome {
    if events == [] then Continue
    else if Decisive(events[0]) then EventEffect(events[0])
    else Scan(events[1..])
  }

  /** The scan itself, a loop over the pending events that returns at the
      first decisive one. */
  method HandleEvents(events: seq<Event>) returns (outcome: EventOutcome)
    ensures outcome == Scan(events)
    ensures outcome == Continue <==> forall i :: 0 <= i < |events| ==> !Decisive(events[i])
    ensures outcome != Continue ==>
              exists i :: 0 <= i < |events| && outcome == EventEffect(events[i])
                          && forall j :: 0 <= j < i ==> !Decisive(events[j])
  {
    var i := 0;
    while i < |events|
      invariant 0 <= i <= |events|
      invariant forall j :: 0 <= j < i ==> !Decisive(events[j])
      invariant Scan(events) == Scan(events[i..])
    {
      var effect := EventEffect(events[i]);
      if effect != Continue {
        ScanFirstDecisive(events, i);
        return effect;
      }
      assert events[i..][1..] == events[i + 1..];
      i := i + 1;
    }
    ScanAllQuiet(events);
    outcome := Continue;
  }

  lemma {:induction false} ScanFirstDecisive(events: seq<Event>, i: nat)
    requires i < |events| && Decisive(events[i])
    requires forall j :: 0 <= j < i ==> !Decisive(events[j])
    ensures Scan(events) == EventEffect(events[i])
  {
    if i > 0 {
      ScanFirstDecisive(events[1..], i - 1);
    }
  }

  lemma {:induction false} ScanAllQuiet(events: seq<Event>)
    requires forall j :: 0 <= j < |events| ==> !Decisive(events[j])
    ensures Scan(events) == Continue
  {
    if events != [] {
      ScanAllQuiet(events[1..]);
    }
  }

  /** Events after a decisive one are never looked at; a batch split in two is
      scanned as the first half, then the second if the first decided nothing. */
  lemma {:induction false} ScanAppend(a: seq<Event>, b: seq<Event>)
    ensures Scan(a + b) == if Scan(a) != Continue then Scan(a) else Scan(b)
  {
    if a == [] {
      assert a + b == b;
    } else {
      assert (a + b)[0] == a[0];
      assert (a + b)[1..] == a[1..] + b;
      ScanAppend(a[1..], b);
    }
  }

  function WithoutResizes(events: seq<Event>): (r: seq<Event>)
    ensures |r| <= |events|
    ensures forall i :: 0 <= i < |r| ==> !r[i].VideoResize?
    ensures forall e :: e in r <==> e in events && !e.VideoResize?
  {
    if events == [] then []
    else (if events[0].VideoResize? then [] else [events[0]]) + WithoutResizes(events[1..])
  }

  /** Window resizes never change what the scan decides. */
  lemma {:induction false} ResizesNeverDecide(events: seq<Event>)
    ensures Scan(WithoutResizes(events)) == Scan(events)
  {
    if events != [] {
      ResizesNeverDecide(events[1..]);
      var rest := WithoutResizes(events[1..]);
      if events[0].VideoResize? {
        assert WithoutResizes(events) == rest;
      } else {
        assert WithoutResizes(events) == [events[0]] + rest;
        assert ([events[0]] + rest)[1..] == rest;
      }
    }
  }

  // ---------------------------------------------------------------------------
  // The loop of `_play_frames` (lines 225-278), without pacing

  /** What happened in one iteration once its frame time had come: the `get`,
      the loader's error at that moment, the pending events, and whether
      drawing the frame went through (`False` when it raised and the loop went
      on at line 275 without advancing the clock). */
  datatype Tick<F, E> = Tick(got: Got<F>, loaderError: Option<E>, events: seq<Event>, drawn: bool)

  /** How a segment's playback ended. `StillPlaying` means the supplied
      iterations ran out before the loop left. */
  datatype SegmentEnd<E> = Finished | Failed(error: E) | Stalled | Skipped | Exited | StillPlaying

  datatype Playback<F, E> = Playback(end: SegmentEnd<E>, shown: seq<F>)

  /** Where one iteration leads: out of the loop, or on with a frame drawn or not. */
  datatype Step<F, E> = Leave(end: SegmentEnd<E>) | Stay(drawn: Option<F>)

  function StepOf<F, E>(t: Tick<F, E>): (s: Step<F, E>)
    ensures s.Leave? && s.end.Finished? <==> t.got.GotEndMarker?
    ensures s.Leave? && s.end.Failed? <==> t.got.GotEmpty? && t.loaderError.Some?
    ensures s.Leave? && s.end.Failed? ==> t.loaderError == Some(s.end.error)
    ensures s.Leave? && s.end.Stalled? <==> t.got.GotEmpty? && t.loaderError.None?
    ensures s.Leave? && s.end.Skipped? <==> t.got.GotFrame? && Scan(t.events) == Skip
    ensures s.Leave? && s.end.Exited? <==> t.got.GotFrame? && Scan(t.events) == Exit
    ensures s.Leave? ==> !s.end.StillPlaying?
    ensures s.Stay? <==> t.got.GotFrame? && Scan(t.events) == Continue
    ensures s.Stay? ==> (s.drawn.Some? <==> t.drawn)
    ensures s.Stay? && s.drawn.Some? ==> s.drawn.value == t.got.frame
  {
    match React(t.got, t.loaderError)
    case EndOfVideo => Leave(Finished)
    case RaiseError(e) => Leave(Failed(e))
    case QueueStalled => Leave(Stalled)
    case Show(frame) =>
      match Scan(t.events)
      case Exit => Leave(Exited)
      case Skip => Leave(Skipped)
      case Continue => Stay(if t.drawn then Some(frame) else None)
  }

  /** The playback of a sequence of iterations: stop at the first that leaves. */
  function Play<F, E>(ticks: seq<Tick<F, E>>): Playback<F, E> {
    if ticks == [] then Playback(StillPlaying, [])
    else match StepOf(ticks[0])
      case Leave(end) => Playback(end, [])
      case Stay(drawn) =>
        var rest := Play(ticks[1..]);
        Playback(rest.end, (if drawn.Some? then [drawn.value] else []) + rest.shown)
  }

  /** The consumer loop; `shown` lists the frames put on screen, one clock
      step (`1/fps` of elapsed time) each. */
  method PlayFrames<F, E>(ticks: seq<Tick<F, E>>) returns (end: SegmentEnd<E>, shown: seq<F>)
    ensures Playback(end, shown) == Play(ticks)
  {
    shown := [];
    var i := 0;
    while i < |ticks|
      invariant 0 <= i <= |ticks|
      invariant Play(ticks) == Playback(Play(ticks[i..]).end, shown + Play(ticks[i..]).shown)
    {
      var t := ticks[i];
      assert ticks[i..][0] == t && ticks[i..][1..] == ticks[i + 1..];
      var reaction := React(t.got, t.loaderError);
      if reaction.EndOfVideo? {
        return Finished, shown;
      } else if reaction.RaiseError? {
        return Failed(reaction.error), shown;
      } else if reaction.QueueStalled? {
        return Stalled, shown;
      }
      var outcome := HandleEvents(t.events);
      if outcome == Exit {
        return Exited, shown;
      } else if outcome == Skip {
        return Skipped, shown;
      }
      if t.drawn {
        shown := shown + [reaction.frame];
      }
      i := i + 1;
    }
    end := StillPlaying;
  }

  /** Once the loop has left, later iterations change nothing; while it has
      not, the frames shown accumulate across a split. */
  lemma {:induction false} PlayAppend<F, E>(a: seq<Tick<F, E>>, b: seq<Tick<F, E>>)
    ensures Play(a).end != StillPlaying ==> Play(a + b) == Play(a)
    ensures Play(a).end == StillPlaying ==>
              Play(a + b) == Playback(Play(b).end, Play(a).shown + Play(b).shown)
  {
    if a == [] {
      assert a + b == b;
    } else {
      assert (a + b)[0] == a[0];
      assert (a + b)[1..] == a[1..] + b;
      PlayAppend(a[1..], b);
    }
  }

  /** A segment fails only by re-raising an error the loader recorded, seen
      when the queue had run empty. */
  lemma {:induction false} FailureComesFromLoader<F, E>(ticks: seq<Tick<F, E>>)
    requires Play(ticks).end.Failed?
    ensures exists i :: 0 <= i < |ticks| && ticks[i].got.GotEmpty?
                        && ticks[i].loaderError == Some(Play(ticks).end.error)
  {
    if StepOf(ticks[0]).Stay? {
      FailureComesFromLoader(ticks[1..]);
      var i :| 0 <= i < |ticks[1..]| && ticks[1..][i].got.GotEmpty?
               && ticks[1..][i].loaderError == Some(Play(ticks[1..]).end.error);
      assert ticks[i + 1] == ticks[1..][i];
    }
  }

  /** Every frame shown was received from the queue, and no more frames are
      shown than iterations run. */
  lemma {:induction false} ShownFramesWereReceived<F, E>(ticks: seq<Tick<F, E>>)
    ensures |Play(ticks).shown| <= |ticks|
    ensures forall f :: f in Play(ticks).shown ==>
              exists i :: 0 <= i < |ticks| && ticks[i].got == GotFrame(f)
  {
    if ticks != [] && StepOf(ticks[0]).Stay? {
      ShownFramesWereReceived(ticks[1..]);
      forall f | f in Play(ticks).shown
        ensures exists i :: 0 <= i < |ticks| && ticks[i].got == GotFrame(f)
      {
        if f !in Play(ticks[1..]).shown {
          assert ticks[0].got == GotFrame(f);
        } else {
          var i :| 0 <= i < |ticks[1..]| && ticks[1..][i].got == GotFrame(f);
          assert ticks[i + 1] == ticks[1..][i];
        }
      }
    }
  }

  /** Resize events pending at any iteration never change how the segment plays. */
  lemma {:induction false} ResizesNeverChangePlayback<F, E>(ticks: seq<Tick<F, E>>, quiet: seq<Tick<F, E>>)
    requires |quiet| == |ticks|
    requires forall i :: 0 <= i < |ticks| ==>
               quiet[i] == ticks[i].(events := WithoutResizes(ticks[i].events))
    ensures Play(quiet) == Play(ticks)
  {
    if ticks != [] {
      ResizesNeverDecide(ticks[0].events);
      ResizesNeverChangePlayback(ticks[1..], quiet[1..]);
    }
  }
}
