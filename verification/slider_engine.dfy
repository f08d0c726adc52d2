/** The before/after slider's interaction state machine. It exists twice in
    the source: in the live preview component and, as a framework-free
    script, inside every exported slider document. Both are one transition
    function here, told apart by `Variant`.

    State: the `isDragging`/`hasDragged` flags, whether an animation frame
    of the hint sweep is pending, the sweep's time origin and the divider
    position in percent. Events: press, move, release, click, animation
    frame, and (live only) re-running the effects after an edit. */
module SliderEngine {
  import opened Wrappers
  import opened AdTypes

  datatype Variant = LivePreview | ExportedScript

  /** Sweep amplitude in percent: 50 in the live preview, 30 in the export. */
  function Amplitude(v: Variant): real {
    if v.LivePreview? then 50.0 else 30.0
  }

  /** The live preview arms a drag on a press anywhere in the ad container;
      the exported script only on a press on the handle. */
  predicate Arms(v: Variant, onHandle: bool) {
    v.LivePreview? || onHandle
  }

  /** The container's bounding box along the drag axis. A laid-out ad has a
      positive width. */
  datatype Rect = Rect(left: real, width: real)
  type Container = r: Rect | r.width > 0.0 witness Rect(0.0, 1.0)

  /** `Math.max(0, Math.min(p, 100))`. */
  function Clamp(p: real): (r: real)
    ensures 0.0 <= r <= 100.0
    ensures 0.0 <= p <= 100.0 ==> r == p
    ensures p < 0.0 ==> r == 0.0
    ensures p > 100.0 ==> r == 100.0
  {
    if p < 0.0 then 0.0 else if p > 100.0 then 100.0 else p
  }

  /** `updatePosition(clientX)`: the pointer's offset into the container as a
      percentage of its width, clamped to [0, 100]. */
  function PositionAt(g: Container, x: real): (p: real)
    ensures 0.0 <= p <= 100.0
    ensures x <= g.left ==> p == 0.0
    ensures x >= g.left + g.width ==> p == 100.0
    ensures g.left <= x <= g.left + g.width ==> p * g.width == (x - g.left) * 100.0
  {
    var f := (x - g.left) / g.width;
    assert f * g.width == x - g.left;
    assert g.left <= x <= g.left + g.width ==> 0.0 <= f <= 1.0;
    Clamp(f * 100.0)
  }

  /** The client x-coordinate the exported sweep hands to `updatePosition`
      to reach percentage `p`: `left + width * (p / 100)`. */
  function ClientXFor(g: Container, p: real): real {
    g.left + g.width * (p / 100.0)
  }

  /** Going through client coordinates loses nothing: the exported sweep's
      detour lands on the clamped target itself. */
  lemma PositionOfClientX(g: Container, p: real)
    ensures PositionAt(g, ClientXFor(g, p)) == Clamp(p)
  {
    var x := ClientXFor(g, p);
    assert x - g.left == g.width * (p / 100.0);
    assert g.width * (p / 100.0) / g.width == p / 100.0;
    assert (x - g.left) / g.width == p / 100.0;
  }

  /** Pointer positions further right never put the divider further left. */
  lemma PositionMonotone(g: Container, x1: real, x2: real)
    requires x1 <= x2
    ensures PositionAt(g, x1) <= PositionAt(g, x2)
  {
    assert (x1 - g.left) / g.width <= (x2 - g.left) / g.width;
  }

  /** `Math.sin(progress * 2 * Math.PI)` as a function of `progress`, left
      abstract; a faithful one stays within [-1, 1]. */
  type Wave = real -> real

  ghost predicate BoundedWave(wave: Wave) {
    forall p :: -1.0 <= wave(p) <= 1.0
  }

  /** Truncation toward zero, as JavaScript's `%` uses it. */
  function Trunc(x: real): int {
    if x >= 0.0 then x.Floor else -((-x).Floor)
  }

  /** JavaScript's `a % d` on numbers: the remainder takes the sign of `a`,
      whatever the sign of `d`. A zero divisor gives `NaN`, which is not
      modelled. */
  function JsRem(a: real, d: real): real
    requires d != 0.0
  {
    a - d * (Trunc(a / d) as real)
  }

  /** The start position comes from a 0..100 range control. The sweep
      duration is a number field without a minimum, so any integer,
      negative ones included, can reach the engine. */
  predicate WellFormed(ad: SliderAd) {
    0 <= ad.startPositionPct <= 100
  }

  datatype Slider = Slider(
    dragging: bool,
    hasDragged: bool,
    framePending: bool,
    sweepOrigin: Option<real>,
    pos: real)

  datatype Event =
    | Press(x: real, onHandle: bool)
    | Move(x: real)
    | Release
    | Click
    | Frame(time: real)
    | Reconfigure(startChanged: bool)

  /** The state on mount (live) or on document load (export): divider at
      the start position, nothing dragged, a first sweep frame requested
      when the hint is on. */
  function Initial(ad: SliderAd): (s: Slider)
    ensures s.pos == ad.startPositionPct as real
    ensures !s.dragging && !s.hasDragged && s.sweepOrigin.None?
    ensures s.framePending <==> ad.hintAnimation
  {
    Slider(false, false, ad.hintAnimation, None, ad.startPositionPct as real)
  }

  /** A click on the ad's links is swallowed iff `hasDragged` is set. */
  predicate ClickSuppressed(s: Slider) {
    s.hasDragged
  }

  /** The divider/clip position one sweep frame asks for (`newPos`, before
      any clamping). */
  function SweepTarget(v: Variant, ad: SliderAd, wave: Wave, elapsed: real): real
    requires ad.sweepDurationMs != 0
  {
    var d := ad.sweepDurationMs as real;
    ad.startPositionPct as real + Amplitude(v) * wave(JsRem(elapsed, d) / d)
  }

  /** The sweep's time origin at frame time `t`: `if (!startTime)
      startTime = time`, so an origin of 0 counts as unset. */
  function SweepOrigin(s: Slider, t: real): real {
    if s.sweepOrigin.None? || s.sweepOrigin.value == 0.0 then t else s.sweepOrigin.value
  }

  /** The frame at `t` continues the sweep: `elapsed < duration || hintLoop`. */
  predicate SweepContinues(ad: SliderAd, s: Slider, t: real) {
    t - SweepOrigin(s, t) < ad.sweepDurationMs as real || ad.hintLoop
  }

  /** The export skips the sweep while a drag is in progress. */
  predicate SkipsForDrag(v: Variant, s: Slider) {
    v.ExportedScript? && s.dragging
  }

  /** A frame yields a number unless it continues the sweep with a zero
      duration, where `elapsed % 0` is `NaN`. */
  predicate FrameDefined(v: Variant, ad: SliderAd, s: Slider, t: real) {
    ad.sweepDurationMs != 0 || SkipsForDrag(v, s) || !SweepContinues(ad, s, t)
  }

  /** One run of the `animate` callback at frame time `t`; `s` already has
      its pending frame consumed. A continuing frame moves the divider to the
      clamped sweep target (the export's detour through client coordinates
      lands on the same place) and asks for another frame; a finished one
      puts the divider back on the start position and stops. */
  function SweepFrame(v: Variant, ad: SliderAd, g: Container, wave: Wave, s: Slider, t: real): (r: Slider)
    requires !s.framePending && FrameDefined(v, ad, s, t)
    ensures r.dragging == s.dragging && r.hasDragged == s.hasDragged
    ensures SkipsForDrag(v, s) ==> r == s.(sweepOrigin := None)
    ensures !SkipsForDrag(v, s) ==> r.sweepOrigin == Some(SweepOrigin(s, t))
    ensures !SkipsForDrag(v, s) && SweepContinues(ad, s, t) ==>
      r.framePending && r.pos == Clamp(SweepTarget(v, ad, wave, t - SweepOrigin(s, t)))
    ensures !SkipsForDrag(v, s) && !SweepContinues(ad, s, t) ==>
      !r.framePending && r.pos == (if v.LivePreview? then ad.startPositionPct as real else Clamp(ad.startPositionPct as real))
    ensures r.framePending ==> r.sweepOrigin.Some? && (ad.hintLoop || t - r.sweepOrigin.value < ad.sweepDurationMs as real)
  {
    if SkipsForDrag(v, s) then s.(sweepOrigin := None)
    else
      var origin := SweepOrigin(s, t);
      var elapsed := t - origin;
      var start := ad.startPositionPct as real;
      if elapsed < ad.sweepDurationMs as real || ad.hintLoop then
        var target := SweepTarget(v, ad, wave, elapsed);
        PositionOfClientX(g, target);
        var p := if v.LivePreview? then Clamp(target) else PositionAt(g, ClientXFor(g, target));
        s.(sweepOrigin := Some(origin), pos := p, framePending := true)
      else
        PositionOfClientX(g, start);
        var p := if v.LivePreview? then start else PositionAt(g, ClientXFor(g, start));
        s.(sweepOrigin := Some(origin), pos := p)
  }

  /** An event can be stepped unless it is a pending frame that would
      compute `NaN`. */
  predicate StepDefined(v: Variant, ad: SliderAd, s: Slider, e: Event) {
    e.Frame? && s.framePending ==> FrameDefined(v, ad, s.(framePending := false), e.time)
  }

  /** The transition function of both variants. */
  function Step(v: Variant, ad: SliderAd, g: Container, wave: Wave, s: Slider, e: Event): (r: Slider)
    requires StepDefined(v, ad, s, e)
    ensures e.Press? && Arms(v, e.onHandle) ==>
      r.dragging && !r.hasDragged && !r.framePending && r.pos == PositionAt(g, e.x)
    ensures e.Press? && !Arms(v, e.onHandle) ==> r == s
    ensures e.Move? && !s.dragging ==> r == s
    ensures e.Move? && s.dragging ==> r == s.(hasDragged := true, pos := PositionAt(g, e.x))
    ensures e.Release? ==> r == s.(dragging := false)
    ensures e.Click? ==> r == s
    ensures e.Frame? && !s.framePending ==> r == s
    ensures !e.Reconfigure? && !s.framePending ==> !r.framePending
    ensures !e.Press? && !e.Move? && !e.Release? ==>
      r.dragging == s.dragging && r.hasDragged == s.hasDragged
    ensures e.Reconfigure? && v.ExportedScript? ==> r == s
    ensures e.Reconfigure? && v.LivePreview? ==>
      && r.pos == (if e.startChanged then ad.startPositionPct as real else s.pos)
      && (r.framePending <==> ad.hintAnimation && !s.dragging)
      && r.sweepOrigin.None?
  {
    match e
    case Press(x, onHandle) =>
      if Arms(v, onHandle)
      then s.(dragging := true, hasDragged := false, framePending := false, pos := PositionAt(g, x))
      else s
    case Move(x) =>
      if s.dragging then s.(hasDragged := true, pos := PositionAt(g, x)) else s
    case Release => s.(dragging := false)
    case Click => s
    case Frame(t) =>
      if s.framePending then SweepFrame(v, ad, g, wave, s.(framePending := false), t) else s
    case Reconfigure(startChanged) =>
      if v.ExportedScript? then s
      else
        s.(pos := if startChanged then ad.startPositionPct as real else s.pos,
           framePending := ad.hintAnimation && !s.dragging,
           sweepOrigin := None)
  }

  /** Every event of `es`, from `s` on, can be stepped. */
  predicate RunDefined(v: Variant, ad: SliderAd, g: Container, wave: Wave, s: Slider, es: seq<Event>)
    decreases |es|
  {
    |es| == 0 || (StepDefined(v, ad, s, es[0]) && RunDefined(v, ad, g, wave, Step(v, ad, g, wave, s, es[0]), es[1..]))
  }

  /** The state after a sequence of events. */
  function Run(v: Variant, ad: SliderAd, g: Container, wave: Wave, s: Slider, es: seq<Event>): Slider
    requires RunDefined(v, ad, g, wave, s, es)
    decreases |es|
  {
    if |es| == 0 then s else Run(v, ad, g, wave, Step(v, ad, g, wave, s, es[0]), es[1..])
  }

  /** What every reachable state satisfies: the divider is inside the
      container, and a sweep frame is never pending during a drag, so the
      two drivers of the position never run together. */
  predicate Invariant(s: Slider) {
    0.0 <= s.pos <= 100.0 && (s.framePending ==> !s.dragging)
  }

  /** With a non-zero duration every trace can be run. */
  lemma {:induction false} NonZeroDurationRunsAll(v: Variant, ad: SliderAd, g: Container, wave: Wave, s: Slider, es: seq<Event>)
    requires ad.sweepDurationMs != 0
    ensures RunDefined(v, ad, g, wave, s, es)
    decreases |es|
  {
    if |es| > 0 {
      NonZeroDurationRunsAll(v, ad, g, wave, Step(v, ad, g, wave, s, es[0]), es[1..]);
    }
  }

  /** A trace without frames can always be run: only frames read the
      duration. */
  lemma {:induction false} FramelessRunDefined(v: Variant, ad: SliderAd, g: Container, wave: Wave, s: Slider, es: seq<Event>)
    requires forall i :: 0 <= i < |es| ==> !es[i].Frame?
    ensures RunDefined(v, ad, g, wave, s, es)
    decreases |es|
  {
    if |es| > 0 {
      var rest := es[1..];
      assert forall i :: 0 <= i < |rest| ==> !rest[i].Frame? by {
        forall i | 0 <= i < |rest| ensures !rest[i].Frame? { assert rest[i] == es[i + 1]; }
      }
      FramelessRunDefined(v, ad, g, wave, Step(v, ad, g, wave, s, es[0]), rest);
    }
  }

  /** With no frame pending and no edit to request one, every trace can be
      run: its frames are all inert. */
  lemma {:induction false} QuietRunDefined(v: Variant, ad: SliderAd, g: Container, wave: Wave, s: Slider, es: seq<Event>)
    requires !s.framePending
    requires forall i :: 0 <= i < |es| ==> !es[i].Reconfigure?
    ensures RunDefined(v, ad, g, wave, s, es)
    decreases |es|
  {
    if |es| > 0 {
      var rest := es[1..];
      assert forall i :: 0 <= i < |rest| ==> !rest[i].Reconfigure? by {
        forall i | 0 <= i < |rest| ensures !rest[i].Reconfigure? { assert rest[i] == es[i + 1]; }
      }
      QuietRunDefined(v, ad, g, wave, Step(v, ad, g, wave, s, es[0]), rest);
    }
  }

  lemma InitialInvariant(ad: SliderAd)
    requires WellFormed(ad)
    ensures Invariant(Initial(ad))
  {
  }

  /** Every event keeps the invariant. */
  lemma StepPreservesInvariant(v: Variant, ad: SliderAd, g: Container, wave: Wave, s: Slider, e: Event)
    requires WellFormed(ad) && Invariant(s) && StepDefined(v, ad, s, e)
    ensures Invariant(Step(v, ad, g, wave, s, e))
  {
  }

  /** Every sequence of events keeps the invariant; in particular every
      sweep frame leaves the divider inside [0, 100]. */
  lemma {:induction false} RunPreservesInvariant(v: Variant, ad: SliderAd, g: Container, wave: Wave, s: Slider, es: seq<Event>)
    requires WellFormed(ad) && Invariant(s) && RunDefined(v, ad, g, wave, s, es)
    ensures Invariant(Run(v, ad, g, wave, s, es))
    decreases |es|
  {
    if |es| > 0 {
      StepPreservesInvariant(v, ad, g, wave, s, es[0]);
      RunPreservesInvariant(v, ad, g, wave, Step(v, ad, g, wave, s, es[0]), es[1..]);
    }
  }

  /** No press in `es` arms a drag. */
  predicate NoArmingPress(v: Variant, es: seq<Event>) {
    forall i :: 0 <= i < |es| ==> !(es[i].Press? && Arms(v, es[i].onHandle))
  }

  /** Some move in `es` comes before any release. */
  ghost predicate MovedBeforeRelease(es: seq<Event>) {
    exists i :: 0 <= i < |es| && es[i].Move? && forall j :: 0 <= j < i ==> !es[j].Release?
  }

  /** The drag flag after `es` (with no arming press in it) is the flag
      before, or, when a drag is in progress, whether a move comes before the
      release. */
  lemma {:induction false} HasDraggedAfter(v: Variant, ad: SliderAd, g: Container, wave: Wave, s: Slider, es: seq<Event>)
    requires NoArmingPress(v, es) && RunDefined(v, ad, g, wave, s, es)
    ensures Run(v, ad, g, wave, s, es).hasDragged <==> s.hasDragged || (s.dragging && MovedBeforeRelease(es))
    decreases |es|
  {
    if |es| > 0 {
      var e, rest := es[0], es[1..];
      var s' := Step(v, ad, g, wave, s, e);
      assert NoArmingPress(v, rest) by {
        forall i | 0 <= i < |rest| ensures !(rest[i].Press? && Arms(v, rest[i].onHandle)) {
          assert rest[i] == es[i + 1];
        }
      }
      HasDraggedAfter(v, ad, g, wave, s', rest);
      if e.Move? {
        if s.dragging {
          assert MovedBeforeRelease(es) by { assert es[0].Move?; }
        }
      } else if e.Release? {
        assert !MovedBeforeRelease(es) by {
          forall i | 0 <= i < |es| && es[i].Move? ensures exists j :: 0 <= j < i && es[j].Release? {
            assert i > 0 && es[0].Release?;
          }
        }
      } else {
        assert MovedBeforeRelease(es) <==> MovedBeforeRelease(rest) by {
          if MovedBeforeRelease(es) {
            var i :| 0 <= i < |es| && es[i].Move? && forall j :: 0 <= j < i ==> !es[j].Release?;
            assert i > 0;
            assert rest[i - 1].Move? && forall j :: 0 <= j < i - 1 ==> !rest[j].Release? && rest[j] == es[j + 1];
          }
          if MovedBeforeRelease(rest) {
            var i :| 0 <= i < |rest| && rest[i].Move? && forall j :: 0 <= j < i ==> !rest[j].Release?;
            assert es[i + 1].Move?;
            assert forall j :: 0 <= j < i + 1 ==> !es[j].Release? by {
              forall j | 0 <= j < i + 1 ensures !es[j].Release? {
                if j > 0 { assert es[j] == rest[j - 1]; }
              }
            }
          }
        }
      }
    }
  }

  /** After a press that arms a drag, a click is suppressed exactly when a
      move came between the press and the release (later presses that do not
      arm, frames, clicks and edits do not matter). */
  lemma ClickSuppressedIffMoved(v: Variant, ad: SliderAd, g: Container, wave: Wave, s: Slider, x: real, es: seq<Event>)
    requires NoArmingPress(v, es) && RunDefined(v, ad, g, wave, s, [Press(x, true)] + es)
    ensures ClickSuppressed(Run(v, ad, g, wave, s, [Press(x, true)] + es)) <==> MovedBeforeRelease(es)
  {
    var trace := [Press(x, true)] + es;
    assert trace[1..] == es;
    HasDraggedAfter(v, ad, g, wave, Step(v, ad, g, wave, s, Press(x, true)), es);
  }

  /** `es` without its animation frames. */
  function DropFrames(es: seq<Event>): (r: seq<Event>)
    ensures forall i :: 0 <= i < |r| ==> !r[i].Frame?
    ensures forall e :: e in r ==> e in es
    ensures |r| <= |es|
  {
    if |es| == 0 then []
    else if es[0].Frame? then DropFrames(es[1..])
    else [es[0]] + DropFrames(es[1..])
  }

  /** With no sweep frame pending and no edit to restart the sweep, frames
      change nothing at all: the position then moves only by dragging. */
  lemma {:induction false} FramesInert(v: Variant, ad: SliderAd, g: Container, wave: Wave, s: Slider, es: seq<Event>)
    requires !s.framePending
    requires forall i :: 0 <= i < |es| ==> !es[i].Reconfigure?
    ensures RunDefined(v, ad, g, wave, s, es) && RunDefined(v, ad, g, wave, s, DropFrames(es))
      && Run(v, ad, g, wave, s, es) == Run(v, ad, g, wave, s, DropFrames(es))
    decreases |es|
  {
    QuietRunDefined(v, ad, g, wave, s, es);
    assert forall i :: 0 <= i < |DropFrames(es)| ==> !DropFrames(es)[i].Reconfigure? by {
      forall i | 0 <= i < |DropFrames(es)| ensures !DropFrames(es)[i].Reconfigure? {
        assert DropFrames(es)[i] in es;
      }
    }
    QuietRunDefined(v, ad, g, wave, s, DropFrames(es));
    if |es| > 0 {
      var rest := es[1..];
      assert forall i :: 0 <= i < |rest| ==> !rest[i].Reconfigure? by {
        forall i | 0 <= i < |rest| ensures !rest[i].Reconfigure? { assert rest[i] == es[i + 1]; }
      }
      var s' := Step(v, ad, g, wave, s, es[0]);
      FramesInert(v, ad, g, wave, s', rest);
      if es[0].Frame? {
        assert s' == s;
      } else {
        var d := [es[0]] + DropFrames(rest);
        assert d[0] == es[0] && d[1..] == DropFrames(rest);
      }
    }
  }

  /** A press that arms a drag during a sweep stops the sweep for good (until
      an edit restarts it): every later frame is inert. */
  lemma PressHaltsSweep(v: Variant, ad: SliderAd, g: Container, wave: Wave, s: Slider, x: real, onHandle: bool, es: seq<Event>)
    requires Arms(v, onHandle)
    requires forall i :: 0 <= i < |es| ==> !es[i].Reconfigure?
    ensures RunDefined(v, ad, g, wave, s, [Press(x, onHandle)] + es)
      && RunDefined(v, ad, g, wave, s, [Press(x, onHandle)] + DropFrames(es))
      && Run(v, ad, g, wave, s, [Press(x, onHandle)] + es)
         == Run(v, ad, g, wave, s, [Press(x, onHandle)] + DropFrames(es))
  {
    var s' := Step(v, ad, g, wave, s, Press(x, onHandle));
    FramesInert(v, ad, g, wave, s', es);
    assert ([Press(x, onHandle)] + es)[1..] == es;
    assert ([Press(x, onHandle)] + DropFrames(es))[1..] == DropFrames(es);
  }

  /** Without looping, the first frame at least one sweep duration after the
      sweep's origin puts the divider back on the start position and
      requests no further frame. */
  lemma SweepEndsAtStart(v: Variant, ad: SliderAd, g: Container, wave: Wave, s: Slider, t: real)
    requires WellFormed(ad) && !ad.hintLoop
    requires s.framePending && !s.dragging
    requires s.sweepOrigin.Some? && s.sweepOrigin.value != 0.0
    requires t - s.sweepOrigin.value >= ad.sweepDurationMs as real
    ensures StepDefined(v, ad, s, Frame(t))
    ensures Step(v, ad, g, wave, s, Frame(t)).pos == ad.startPositionPct as real
    ensures !Step(v, ad, g, wave, s, Frame(t)).framePending
  {
  }

  /** With a wave inside [-1, 1], a sweep frame keeps the divider within one
      amplitude of the start position. */
  lemma SweepStaysNearStart(v: Variant, ad: SliderAd, g: Container, wave: Wave, s: Slider, t: real)
    requires WellFormed(ad) && BoundedWave(wave)
    requires s.framePending && !s.dragging && StepDefined(v, ad, s, Frame(t))
    ensures var p := Step(v, ad, g, wave, s, Frame(t)).pos;
      ad.startPositionPct as real - Amplitude(v) <= p <= ad.startPositionPct as real + Amplitude(v)
  {
    var s' := s.(framePending := false);
    if SweepContinues(ad, s', t) {
      var origin := SweepOrigin(s', t);
      var d := ad.sweepDurationMs as real;
      var w := wave(JsRem(t - origin, d) / d);
      assert -1.0 <= w <= 1.0;
    }
  }

  /** With the hint on and no looping, a sweep whose first frame comes at a
      non-zero time and whose next frame comes one duration later or more
      ends exactly on the start position with nothing left scheduled, for
      every duration. */
  lemma OneSweepReturnsToStart(v: Variant, ad: SliderAd, g: Container, wave: Wave, t0: real, t1: real)
    requires WellFormed(ad) && ad.hintAnimation && !ad.hintLoop
    requires t0 != 0.0 && t1 - t0 >= ad.sweepDurationMs as real
    ensures RunDefined(v, ad, g, wave, Initial(ad), [Frame(t0), Frame(t1)])
    ensures Run(v, ad, g, wave, Initial(ad), [Frame(t0), Frame(t1)]).pos == ad.startPositionPct as real
    ensures !Run(v, ad, g, wave, Initial(ad), [Frame(t0), Frame(t1)]).framePending
  {
    var s0 := Initial(ad);
    var s1 := Step(v, ad, g, wave, s0, Frame(t0));
    assert s1.sweepOrigin == Some(t0) && !s1.dragging;
    var s2 := Step(v, ad, g, wave, s1, Frame(t1));
    if s1.framePending {
      SweepEndsAtStart(v, ad, g, wave, s1, t1);
    } else {
      assert s1.pos == ad.startPositionPct as real;
    }
    assert [Frame(t0), Frame(t1)][1..] == [Frame(t1)];
    assert RunDefined(v, ad, g, wave, s1, [Frame(t1)]) by {
      assert [Frame(t1)][1..] == [];
    }
    assert Run(v, ad, g, wave, s1, [Frame(t1)]) == Run(v, ad, g, wave, s2, []);
  }

  /** A duration at or below zero (the number field has no minimum) ends a
      non-looping sweep at its very first frame: the divider stays on the
      start position and nothing more is scheduled. */
  lemma NonPositiveDurationEndsAtOnce(v: Variant, ad: SliderAd, g: Container, wave: Wave, t: real)
    requires WellFormed(ad) && ad.hintAnimation && !ad.hintLoop && ad.sweepDurationMs <= 0
    ensures StepDefined(v, ad, Initial(ad), Frame(t))
    ensures Step(v, ad, g, wave, Initial(ad), Frame(t)).pos == ad.startPositionPct as real
    ensures !Step(v, ad, g, wave, Initial(ad), Frame(t)).framePending
  {
    assert SweepOrigin(Initial(ad).(framePending := false), t) == t;
  }

  /** A drag event: a press on the handle, a move, a release or a click. */
  predicate DragEvent(e: Event) {
    (e.Press? && e.onHandle) || e.Move? || e.Release? || e.Click?
  }

  /** On drag events the exported script and the live preview agree state
      for state: the export reproduces the preview's drag behaviour. */
  lemma {:induction false} DragParity(ad: SliderAd, g: Container, wave: Wave, s: Slider, es: seq<Event>)
    requires forall i :: 0 <= i < |es| ==> DragEvent(es[i])
    ensures RunDefined(LivePreview, ad, g, wave, s, es) && RunDefined(ExportedScript, ad, g, wave, s, es)
      && Run(LivePreview, ad, g, wave, s, es) == Run(ExportedScript, ad, g, wave, s, es)
    decreases |es|
  {
    FramelessRunDefined(LivePreview, ad, g, wave, s, es);
    FramelessRunDefined(ExportedScript, ad, g, wave, s, es);
    if |es| > 0 {
      var rest := es[1..];
      assert forall i :: 0 <= i < |rest| ==> DragEvent(rest[i]) by {
        forall i | 0 <= i < |rest| ensures DragEvent(rest[i]) { assert rest[i] == es[i + 1]; }
      }
      assert Step(LivePreview, ad, g, wave, s, es[0]) == Step(ExportedScript, ad, g, wave, s, es[0]);
      DragParity(ad, g, wave, Step(LivePreview, ad, g, wave, s, es[0]), rest);
    }
  }

  /** The export resets `hasDragged` only on a press on the handle, so once
      the handle has been dragged a later plain click on a half (press off
      the handle, then click) is still swallowed; the live preview, which
      re-arms on any press, lets it through. */
  lemma ExportKeepsSuppressingAfterDrag(ad: SliderAd, g: Container, wave: Wave, s: Slider, x: real, y: real, z: real)
    ensures var es := [Press(x, true), Move(y), Release, Press(z, false), Click];
      && RunDefined(ExportedScript, ad, g, wave, s, es) && RunDefined(LivePreview, ad, g, wave, s, es)
      && ClickSuppressed(Run(ExportedScript, ad, g, wave, s, es))
      && !ClickSuppressed(Run(LivePreview, ad, g, wave, s, es))
  {
    var es := [Press(x, true), Move(y), Release, Press(z, false), Click];
    ExportSuppressionTrace(ExportedScript, ad, g, wave, s, es);
    ExportSuppressionTrace(LivePreview, ad, g, wave, s, es);
  }

  lemma ExportSuppressionTrace(v: Variant, ad: SliderAd, g: Container, wave: Wave, s: Slider, es: seq<Event>)
    requires |es| == 5
    requires es[0].Press? && es[0].onHandle && es[1].Move? && es[2].Release?
    requires es[3].Press? && !es[3].onHandle && es[4].Click?
    ensures RunDefined(v, ad, g, wave, s, es)
      && (ClickSuppressed(Run(v, ad, g, wave, s, es)) <==> v.ExportedScript?)
  {
    FramelessRunDefined(v, ad, g, wave, s, es);
    var s1 := Step(v, ad, g, wave, s, es[0]);
    var s2 := Step(v, ad, g, wave, s1, es[1]);
    var s3 := Step(v, ad, g, wave, s2, es[2]);
    var s4 := Step(v, ad, g, wave, s3, es[3]);
    var s5 := Step(v, ad, g, wave, s4, es[4]);
    assert s3.hasDragged;
    assert s5.hasDragged <==> v.ExportedScript?;
    assert Run(v, ad, g, wave, s4, es[4..]) == Run(v, ad, g, wave, s5, es[5..]);
    assert Run(v, ad, g, wave, s3, es[3..]) == Run(v, ad, g, wave, s4, es[4..]);
    assert Run(v, ad, g, wave, s2, es[2..]) == Run(v, ad, g, wave, s3, es[3..]);
    assert Run(v, ad, g, wave, s1, es[1..]) == Run(v, ad, g, wave, s2, es[2..]);
  }

  /** The two sweeps differ: with the wave at its peak, the live preview's
      first frame reaches start + 50 and the export's only start + 30. */
  lemma AmplitudesDiffer(ad: SliderAd, g: Container, t: real)
    requires ad.startPositionPct == 20 && ad.hintAnimation && ad.sweepDurationMs > 0
    ensures Step(LivePreview, ad, g, _ => 1.0, Initial(ad), Frame(t)).pos == 70.0
    ensures Step(ExportedScript, ad, g, _ => 1.0, Initial(ad), Frame(t)).pos == 50.0
  {
    assert SweepOrigin(Initial(ad), t) == t;
  }

  /** For every configuration, wave and frame time, the live sweep moves
      the target 5/3 as far from the start as the export's does. */
  lemma AmplitudeRatio(ad: SliderAd, wave: Wave, elapsed: real)
    requires ad.sweepDurationMs != 0
    ensures SweepTarget(LivePreview, ad, wave, elapsed) - ad.startPositionPct as real
         == (5.0 / 3.0) * (SweepTarget(ExportedScript, ad, wave, elapsed) - ad.startPositionPct as real)
  {
  }

  /** An interval of the container's width, in percent. */
  datatype Interval = Interval(lo: real, hi: real)

  /** What the divider position shows: the part of the "after" layer left
      visible by its `inset()` clip, the two insets, and where the divider
      line and the handle are drawn. */
  datatype DividerView = DividerView(
    afterVisible: Interval,
    leftInset: real,
    rightInset: real,
    dividerAt: real,
    handleAt: real)

  /** The view at position `pos` in the live preview and in the exported
      script's `updatePosition`: `inset(0 <100-pos>% 0 0)`. */
  function DragView(pos: real): (r: DividerView)
    requires 0.0 <= pos <= 100.0
    ensures r.afterVisible == Interval(r.leftInset, 100.0 - r.rightInset)
    ensures r.afterVisible.lo == 0.0 && r.afterVisible.hi == r.dividerAt
    ensures r.dividerAt == pos && r.handleAt == pos
  {
    DividerView(Interval(0.0, pos), 0.0, 100.0 - pos, pos, pos)
  }

  /** The exported document's initial CSS: `inset(0 0 0 <start>%)`, divider
      and handle at the start position. */
  function ExportInitialView(start: real): (r: DividerView)
    requires 0.0 <= start <= 100.0
    ensures r.afterVisible == Interval(r.leftInset, 100.0 - r.rightInset)
    ensures r.afterVisible.lo == r.dividerAt && r.afterVisible.hi == 100.0
    ensures r.dividerAt == start && r.handleAt == start
  {
    DividerView(Interval(start, 100.0), start, 0.0, start, start)
  }

  /** The exported document opens with the "after" layer revealed on the
      other side of the divider from where its own script (and the live
      preview) reveals it: same divider, never the same visible interval,
      and equally wide only at 50%. */
  lemma ExportInitialClipMismatch(start: real)
    requires 0.0 <= start <= 100.0
    ensures ExportInitialView(start).dividerAt == DragView(start).dividerAt
    ensures ExportInitialView(start).afterVisible != DragView(start).afterVisible
    ensures Width(ExportInitialView(start).afterVisible) == Width(DragView(start).afterVisible) <==> start == 50.0
  {
  }

  function Width(i: Interval): real {
    i.hi - i.lo
  }
}
