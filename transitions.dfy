/**
 * The three CSS-transition animations (slideAnimation,
 * showScreenCenterAnimation, slideToAnimation). Each writes the element's
 * inline z-index, transition and transform, registers completion handlers
 * for transitionend / transitioncancel (on the element) and
 * visibilitychange (on the document), and arms a safety timer; the first
 * completion restores the saved z-index and transition and settles the
 * promise.
 *
 * The handlers remove `cleanOnTransitionEnd` from all three events, but
 * visibilitychange (and, in slideAnimation, transitioncancel) was registered
 * with `cleanOnTransitionCancel`: those registrations survive completion,
 * and a later event runs the handler again. The model keeps this.
 */
module Transitions {
  import opened JsValues
  import opened Geometry
  import opened AnimationUtils

  datatype EventName = TransitionEnd | TransitionCancel | VisibilityChange

  /** The two closures: `cleanOnTransitionEnd` and `cleanOnTransitionCancel`. */
  datatype Handler = OnEnd | OnCancel

  datatype Listener = Listener(event: EventName, handler: Handler)

  /** What can happen to a running animation: an event, or the safety timer firing. */
  datatype Trigger = Fire(event: EventName) | TimerFires

  /** The returned promise; slideAnimation resolves a boolean, the others resolve nothing. */
  datatype Settlement = Pending | Resolved(value: Option<bool>) | Rejected(error: Error)

  /** The values the closures captured when the animation started. */
  datatype Closure = Closure(originalZIndex: CssValue, originalTransition: CssValue, finalTransform: CssValue,
                             endCallback: bool, completion: Option<bool>)

  /** The element's style and effects, the registered handlers, the safety timer delay, the promise. */
  datatype RunState = RunState(style: Style, effects: seq<Effect>, listeners: set<Listener>,
                               timer: Option<real>, settled: Settlement)

  /** The settings the transition animations read. */
  datatype TransitionSettings = TransitionSettings(
    origin: DeltaSettings,
    duration: Option<real>,
    zIndex: Option<int>,
    rotationDelta: Option<real>,
    finalTransform: Option<string>,
    transitionTimingFunction: Option<string>,
    instantaneousMode: bool,
    animationStart: bool,     // an `animationStart` callback is set
    animationEnd: bool)       // an `animationEnd` callback is set

  function Emit(s: RunState, es: seq<Effect>): (r: RunState)
    ensures r.effects == s.effects + es && r.listeners == s.listeners
    ensures r.timer == s.timer && r.settled == s.settled
  {
    s.(style := PerformAll(s.style, es), effects := s.effects + es)
  }

  lemma EmitAppend(s: RunState, es: seq<Effect>, fs: seq<Effect>)
    ensures Emit(Emit(s, es), fs) == Emit(s, es + fs)
  {
    PerformAllAppend(s.style, es, fs);
  }

  lemma EmitOne(s: RunState, e: Effect)
    ensures Emit(s, [e]).style == Perform(s.style, e)
  {
    PerformAllOne(s.style, e);
  }

  /** Writing the three properties in order leaves exactly those values. */
  lemma WritesAll(s: Style, z: CssValue, t: CssValue, f: CssValue)
    ensures PerformAll(s, [WriteZIndex(z), WriteTransition(t), WriteTransform(f)]) == Style(z, t, f)
  {
    PerformAllThree(s, WriteZIndex(z), WriteTransition(t), WriteTransform(f));
  }

  /** The registrations `cleanOnTransitionEnd` removes. */
  const EndListeners := {Listener(TransitionCancel, OnEnd), Listener(TransitionEnd, OnEnd), Listener(VisibilityChange, OnEnd)}

  /** slideAnimation's registrations. */
  const SlideListeners := {Listener(TransitionCancel, OnCancel), Listener(TransitionEnd, OnEnd), Listener(VisibilityChange, OnCancel)}

  /** showScreenCenterAnimation's and slideToAnimation's registrations. */
  const CenterListeners := {Listener(TransitionCancel, OnEnd), Listener(TransitionEnd, OnEnd), Listener(VisibilityChange, OnCancel)}

  function CompletionEffects(c: Closure): seq<Effect> {
    [WriteZIndex(c.originalZIndex), WriteTransition(c.originalTransition)] + (if c.endCallback then [CallAnimationEnd] else [])
  }

  /**
   * cleanOnTransitionEnd: restores the saved z-index and transition, calls
   * animationEnd, settles the promise (a second call changes nothing), drops
   * the `cleanOnTransitionEnd` registrations and clears the timer.
   */
  function Complete(c: Closure, s: RunState): (r: RunState)
    ensures r.style == s.style.(zIndex := c.originalZIndex, transition := c.originalTransition)
    ensures r.effects == s.effects + CompletionEffects(c)
    ensures r.timer.None?
    ensures r.settled == (if s.settled.Pending? then Resolved(c.completion) else s.settled)
    ensures r.listeners == s.listeners - EndListeners
  {
    var es := CompletionEffects(c);
    assert PerformAll(s.style, es) == s.style.(zIndex := c.originalZIndex, transition := c.originalTransition) by {
      var restore := [WriteZIndex(c.originalZIndex), WriteTransition(c.originalTransition)];
      var callback := if c.endCallback then [CallAnimationEnd] else [];
      PerformAllAppend(s.style, restore, callback);
      PerformAllTwo(s.style, restore[0], restore[1]);
      if c.endCallback {
        PerformAllOne(PerformAll(s.style, restore), CallAnimationEnd);
      }
    }
    Emit(s, es).(settled := if s.settled.Pending? then Resolved(c.completion) else s.settled,
                 listeners := s.listeners - EndListeners,
                 timer := None)
  }

  /** cleanOnTransitionCancel: clears the transition, forces the final transform, then completes. */
  function CancelThenComplete(c: Closure, s: RunState): (r: RunState)
    ensures r.style == Style(c.originalZIndex, c.originalTransition, c.finalTransform)
    ensures r.effects == s.effects + [WriteTransition(Unset), WriteTransform(c.finalTransform)] + CompletionEffects(c)
    ensures r.timer.None?
    ensures r.settled == (if s.settled.Pending? then Resolved(c.completion) else s.settled)
    ensures r.listeners == s.listeners - EndListeners
  {
    var es := [WriteTransition(Unset), WriteTransform(c.finalTransform)];
    assert PerformAll(s.style, es) == s.style.(transition := Unset, transform := c.finalTransform) by {
      PerformAllTwo(s.style, es[0], es[1]);
    }
    Complete(c, Emit(s, es))
  }

  /**
   * What a trigger does: the handler registered for the event runs (a
   * cancel registration takes precedence; no run registers both for one
   * event); the timer fires once if it is armed.
   */
  function Step(c: Closure, s: RunState, t: Trigger): RunState {
    match t
    case TimerFires => if s.timer.Some? then Complete(c, s.(timer := None)) else s
    case Fire(e) =>
      if Listener(e, OnCancel) in s.listeners then CancelThenComplete(c, s)
      else if Listener(e, OnEnd) in s.listeners then Complete(c, s)
      else s
  }

  /** A settled promise stays settled with the same value, whatever happens later. */
  lemma SettlementIsFinal(c: Closure, s: RunState, t: Trigger)
    requires !s.settled.Pending?
    ensures Step(c, s, t).settled == s.settled
  {
  }

  /** A run that has not started: no handlers, no timer, promise pending. */
  predicate Idle(s: RunState) {
    s.listeners == {} && s.timer.None? && s.settled.Pending?
  }

  // ----- slideAnimation -----

  /** The transform at the start of a slide: back at the origin, with the rotation delta. */
  function StartTransform(d: Point, settings: TransitionSettings, scale: Option<real>): CssValue {
    TranslateValue(-d.x, -d.y, settings.rotationDelta.GetOr(0.0), scale)
  }

  function SlideClosure(settings: TransitionSettings, s: RunState): Closure {
    Closure(s.style.zIndex, s.style.transition, CssOrNull(settings.finalTransform), settings.animationEnd, Some(true))
  }

  /** slideAnimation's writes once the delta is known. */
  function SlideEffects(settings: TransitionSettings, d: Point): seq<Effect> {
    [WriteZIndex(ZIndexValue(settings.zIndex.GetOr(10))), WriteTransition(Unset),
     WriteTransform(StartTransform(d, settings, None))]
    + (if settings.animationStart then [CallAnimationStart] else [])
    + [WriteTransition(TransitionValue(settings.duration.GetOr(500.0), "linear")),
       WriteTransform(CssOrNull(settings.finalTransform))]
  }

  /**
   * slideAnimation's executor: resolves false without touching the element
   * when the animation should not play; rejects when no origin is set;
   * otherwise writes the start state, calls animationStart, registers the
   * handlers, sets the transition towards the final transform and arms the
   * timer at duration + 100 ms.
   */
  function SlideStart(settings: TransitionSettings, hidden: bool, s: RunState, destination: Rect,
                      rectOf: nat -> Rect): (r: RunState)
    requires Idle(s)
    ensures !ShouldAnimate(hidden, settings.instantaneousMode) ==> r == s.(settled := Resolved(Some(false)))
    ensures ShouldAnimate(hidden, settings.instantaneousMode) && DeltaCoordinates(settings.origin, destination, rectOf).Err? ==>
              r == s.(settled := Rejected(DeltaCoordinates(settings.origin, destination, rectOf).error))
  {
    if !ShouldAnimate(hidden, settings.instantaneousMode) then s.(settled := Resolved(Some(false)))
    else
      var delta := DeltaCoordinates(settings.origin, destination, rectOf);
      if delta.Err? then s.(settled := Rejected(delta.error))
      else
        Emit(s, DeltaEffects(settings.origin, s.style) + SlideEffects(settings, delta.value))
          .(listeners := SlideListeners, timer := Some(settings.duration.GetOr(500.0) + 100.0))
  }

  /** After slideAnimation's writes: its z-index, the linear transition and the final transform. */
  lemma SlideEffectsStyle(s: Style, settings: TransitionSettings, d: Point)
    ensures PerformAll(s, SlideEffects(settings, d)) ==
            Style(ZIndexValue(settings.zIndex.GetOr(10)), TransitionValue(settings.duration.GetOr(500.0), "linear"),
                  CssOrNull(settings.finalTransform))
  {
    var a := [WriteZIndex(ZIndexValue(settings.zIndex.GetOr(10))), WriteTransition(Unset),
              WriteTransform(StartTransform(d, settings, None))];
    var b := if settings.animationStart then [CallAnimationStart] else [];
    var tail := [WriteTransition(TransitionValue(settings.duration.GetOr(500.0), "linear")),
                 WriteTransform(CssOrNull(settings.finalTransform))];
    assert SlideEffects(settings, d) == a + b + tail;
    PerformAllAppend(s, a + b, tail);
    PerformAllAppend(s, a, b);
    WritesAll(s, a[0].value, a[1].value, a[2].value);
    var m := PerformAll(s, a);
    if settings.animationStart {
      PerformAllOne(m, CallAnimationStart);
    }
    PerformAllTwo(PerformAll(m, b), tail[0], tail[1]);
  }

  /** The last effect of a completion is the animationEnd call exactly when one is set. */
  lemma CompletionEndsWithCallback(c: Closure, prefix: seq<Effect>)
    ensures var es := prefix + CompletionEffects(c);
            c.endCallback <==> es[|es| - 1] == CallAnimationEnd
  {
  }

  /**
   * After a slide has started, every way it can complete restores the
   * z-index and transition the element had before and resolves true:
   * transitionend and the timer leave the final transform in place,
   * transitioncancel and visibilitychange force it first. The timer is
   * cleared, animationEnd runs once if set.
   */
  lemma SlideCompletes(settings: TransitionSettings, s: RunState, destination: Rect,
                       rectOf: nat -> Rect, t: Trigger)
    requires Idle(s) && ShouldAnimate(false, settings.instantaneousMode)
    requires DeltaCoordinates(settings.origin, destination, rectOf).Ok?
    ensures var s1 := SlideStart(settings, false, s, destination, rectOf);
            var s2 := Step(SlideClosure(settings, s), s1, t);
            && s1.listeners == SlideListeners && s1.timer == Some(settings.duration.GetOr(500.0) + 100.0)
            && s1.style == Style(ZIndexValue(settings.zIndex.GetOr(10)), TransitionValue(settings.duration.GetOr(500.0), "linear"),
                                 CssOrNull(settings.finalTransform))
            && s2.style == Style(s.style.zIndex, s.style.transition, CssOrNull(settings.finalTransform))
            && s2.settled == Resolved(Some(true))
            && s2.timer.None?
            && (settings.animationEnd <==> s2.effects[|s2.effects| - 1] == CallAnimationEnd)
  {
    var c := SlideClosure(settings, s);
    var d := DeltaCoordinates(settings.origin, destination, rectOf).value;
    var es := DeltaEffects(settings.origin, s.style);
    var fs := SlideEffects(settings, d);
    DeltaRestoresTransform(settings.origin, s.style);
    PerformAllAppend(s.style, es, fs);
    SlideEffectsStyle(s.style, settings, d);
    var s1 := SlideStart(settings, false, s, destination, rectOf);
    assert s1 == Emit(s, es + fs).(listeners := SlideListeners, timer := Some(settings.duration.GetOr(500.0) + 100.0));
    var s2 := Step(c, s1, t);
    match t
    case TimerFires =>
      assert s2 == Complete(c, s1.(timer := None));
      CompletionEndsWithCallback(c, s1.effects);
    case Fire(e) =>
      if e == TransitionEnd {
        assert s2 == Complete(c, s1);
        CompletionEndsWithCallback(c, s1.effects);
      } else {
        assert s2 == CancelThenComplete(c, s1);
        CompletionEndsWithCallback(c, s1.effects + [WriteTransition(Unset), WriteTransform(c.finalTransform)]);
      }
  }

  /**
   * The leaked registrations: after a slide has completed, visibilitychange
   * and transitioncancel still run `cleanOnTransitionCancel`, which writes
   * the final transform and the saved z-index and transition again and
   * calls animationEnd a second time; transitionend is ignored.
   */
  lemma SlideHandlersLeak(c: Closure, s: RunState, first: Trigger)
    requires s.listeners == SlideListeners && s.timer.Some?
    ensures var done := Step(c, s, first);
            && Listener(VisibilityChange, OnCancel) in done.listeners
            && Listener(TransitionCancel, OnCancel) in done.listeners
            && Step(c, done, Fire(TransitionEnd)) == done
            && var again := Step(c, done, Fire(VisibilityChange));
               again.style == Style(c.originalZIndex, c.originalTransition, c.finalTransform) &&
               again.effects == done.effects + [WriteTransition(Unset), WriteTransform(c.finalTransform)] + CompletionEffects(c) &&
               again.settled == done.settled
  {
    var done := Step(c, s, first);
    match first
    case TimerFires =>
      assert done == Complete(c, s.(timer := None));
    case Fire(e) =>
      if e == TransitionEnd {
        assert done == Complete(c, s);
      } else {
        assert done == CancelThenComplete(c, s);
      }
    assert done.listeners == {Listener(TransitionCancel, OnCancel), Listener(VisibilityChange, OnCancel)};
    assert Listener(TransitionEnd, OnCancel) !in done.listeners && Listener(TransitionEnd, OnEnd) !in done.listeners;
  }

  // ----- showScreenCenterAnimation -----

  /** The element's centre relative to the viewport centre. */
  function ScreenCenterOffset(rect: Rect, viewport: Point): Point {
    Point((rect.left + rect.Right()) / 2.0 - viewport.x / 2.0, (rect.top + rect.Bottom()) / 2.0 - viewport.y / 2.0)
  }

  function CenterClosure(settings: TransitionSettings, s: RunState): Closure {
    Closure(s.style.zIndex, s.style.transition, CssOrNull(settings.finalTransform), false, None)
  }

  function ScreenCenterEffects(settings: TransitionSettings, offset: Point): seq<Effect> {
    [WriteZIndex(ZIndexValue(settings.zIndex.GetOr(10))),
     WriteTransition(TransitionValue(settings.duration.GetOr(500.0), settings.transitionTimingFunction.GetOr("linear"))),
     WriteTransform(StartTransform(offset, settings, None))]
  }

  /**
   * showScreenCenterAnimation's executor: z-index, then a transition
   * (default 'linear') towards the translation that brings the element's
   * centre to the viewport centre; handlers and the timer.
   */
  function ScreenCenterStart(settings: TransitionSettings, s: RunState, rect: Rect, viewport: Point): (r: RunState)
    requires Idle(s)
    ensures r.listeners == CenterListeners && r.timer == Some(settings.duration.GetOr(500.0) + 100.0)
    ensures r.settled.Pending?
  {
    Emit(s, ScreenCenterEffects(settings, ScreenCenterOffset(rect, viewport)))
      .(listeners := CenterListeners, timer := Some(settings.duration.GetOr(500.0) + 100.0))
  }

  /** The target translation moves the element's centre onto the viewport centre. */
  lemma ScreenCenterTarget(settings: TransitionSettings, s: RunState, rect: Rect, viewport: Point)
    requires Idle(s)
    ensures var t := ScreenCenterStart(settings, s, rect, viewport).style.transform;
            && t.TranslateValue?
            && Center(rect).x + t.x == viewport.x / 2.0 && Center(rect).y + t.y == viewport.y / 2.0
            && t.rotateDeg == settings.rotationDelta.GetOr(0.0)
  {
    var o := ScreenCenterOffset(rect, viewport);
    WritesAll(s.style, ZIndexValue(settings.zIndex.GetOr(10)),
              TransitionValue(settings.duration.GetOr(500.0), settings.transitionTimingFunction.GetOr("linear")),
              StartTransform(o, settings, None));
  }

  /**
   * For showScreenCenterAnimation and slideToAnimation: transitioncancel
   * completes without touching the transform, visibilitychange forces the
   * final transform (not the centre offset) first; either restores the
   * saved z-index and transition. The visibilitychange registration is
   * still there afterwards.
   */
  lemma CenterCompletions(c: Closure, s: RunState)
    requires s.listeners == CenterListeners && s.settled.Pending?
    ensures var byEnd := Step(c, s, Fire(TransitionEnd));
            var byCancel := Step(c, s, Fire(TransitionCancel));
            var byHidden := Step(c, s, Fire(VisibilityChange));
            && byEnd == byCancel
            && byEnd.style == s.style.(zIndex := c.originalZIndex, transition := c.originalTransition)
            && byHidden.style == Style(c.originalZIndex, c.originalTransition, c.finalTransform)
            && byEnd.settled == byHidden.settled == Resolved(c.completion)
            && byEnd.listeners == byHidden.listeners == {Listener(VisibilityChange, OnCancel)}
            && Step(c, byEnd, Fire(TransitionEnd)) == byEnd
            && Step(c, byEnd, Fire(TransitionCancel)) == byEnd
            && Step(c, byEnd, Fire(VisibilityChange)).style == byHidden.style
  {
  }

  // ----- slideToAnimation -----

  function SlideToEffects(settings: TransitionSettings, d: Point): seq<Effect> {
    [WriteZIndex(ZIndexValue(settings.zIndex.GetOr(10))),
     WriteTransition(TransitionValue(settings.duration.GetOr(500.0), "linear")),
     WriteTransform(StartTransform(d, settings, Some(settings.origin.scale.GetOr(1.0))))]
  }

  /**
   * slideToAnimation's executor: rejects when no origin is set (nothing
   * written); otherwise z-index, a linear transition towards the translation
   * by minus the delta, rotated and scaled by `scale ?? 1`; handlers, timer.
   */
  function SlideToStart(settings: TransitionSettings, s: RunState, destination: Rect, rectOf: nat -> Rect): (r: RunState)
    requires Idle(s)
    ensures DeltaCoordinates(settings.origin, destination, rectOf).Err? <==> r.settled.Rejected?
    ensures r.settled.Rejected? ==> r == s.(settled := Rejected(Thrown(DeltaMessage)))
    ensures r.settled.Pending? ==> r.listeners == CenterListeners && r.timer == Some(settings.duration.GetOr(500.0) + 100.0)
  {
    var delta := DeltaCoordinates(settings.origin, destination, rectOf);
    if delta.Err? then s.(settled := Rejected(delta.error))
    else
      Emit(s, DeltaEffects(settings.origin, s.style) + SlideToEffects(settings, delta.value))
        .(listeners := CenterListeners, timer := Some(settings.duration.GetOr(500.0) + 100.0))
  }

  /** The slide-to target undoes the delta: translate by its negation, scaled by `scale ?? 1`. */
  lemma SlideToTarget(settings: TransitionSettings, s: RunState, destination: Rect, rectOf: nat -> Rect)
    requires Idle(s) && DeltaCoordinates(settings.origin, destination, rectOf).Ok?
    ensures var d := DeltaCoordinates(settings.origin, destination, rectOf).value;
            var r := SlideToStart(settings, s, destination, rectOf);
            r.style.transform == TranslateValue(-d.x, -d.y, settings.rotationDelta.GetOr(0.0), Some(settings.origin.scale.GetOr(1.0)))
            && r.style.zIndex == ZIndexValue(settings.zIndex.GetOr(10))
  {
    var d := DeltaCoordinates(settings.origin, destination, rectOf).value;
    var es := DeltaEffects(settings.origin, s.style);
    var fs := SlideToEffects(settings, d);
    DeltaRestoresTransform(settings.origin, s.style);
    PerformAllAppend(s.style, es, fs);
    WritesAll(s.style, ZIndexValue(settings.zIndex.GetOr(10)), TransitionValue(settings.duration.GetOr(500.0), "linear"),
              StartTransform(d, settings, Some(settings.origin.scale.GetOr(1.0))));
  }

  /**
   * One run of a transition animation on an element: the registered
   * handlers, the safety timer and the returned promise, over the element
   * whose inline style the run writes.
   */
  class TransitionRun {
    const element: StyledElement
    var listeners: set<Listener>
    var timer: Option<real>
    var settled: Settlement
    var closure: Closure

    function State(): RunState
      reads this, element
    {
      RunState(element.style, element.effects, listeners, timer, settled)
    }

    constructor (element: StyledElement)
      ensures this.element == element && Idle(State())
    {
      this.element := element;
      listeners := {};
      timer := None;
      settled := Pending;
      closure := Closure(Unset, Unset, Unset, false, None);
    }

    /** One write on the element, as the state machine sees it. */
    method Write(e: Effect)
      modifies element
      ensures State() == Emit(old(State()), [e])
    {
      ghost var s := State();
      element.Do(e);
      EmitOne(s, e);
    }

    /** Several writes on the element, in order. */
    method WriteAll(es: seq<Effect>)
      modifies element
      ensures State() == Emit(old(State()), es)
    {
      ghost var s := State();
      for i := 0 to |es|
        invariant State() == Emit(s, es[..i])
      {
        Write(es[i]);
        EmitAppend(s, es[..i], [es[i]]);
        assert es[..i] + [es[i]] == es[..i + 1];
      }
      assert es[..|es|] == es;
    }

    /** `cleanOnTransitionEnd`. */
    method CleanOnTransitionEnd()
      modifies this, element
      ensures State() == Complete(closure, old(State())) && closure == old(closure)
    {
      WriteAll(CompletionEffects(closure));
      if settled.Pending? {
        settled := Resolved(closure.completion);
      }
      listeners := listeners - {Listener(TransitionCancel, OnEnd)};
      listeners := listeners - {Listener(TransitionEnd, OnEnd)};
      listeners := listeners - {Listener(VisibilityChange, OnEnd)};
      timer := None;
    }

    /** `cleanOnTransitionCancel`. */
    method CleanOnTransitionCancel()
      modifies this, element
      ensures State() == CancelThenComplete(closure, old(State())) && closure == old(closure)
    {
      WriteAll([WriteTransition(Unset), WriteTransform(closure.finalTransform)]);
      CleanOnTransitionEnd();
    }

    /** The browser delivers an event, or the safety timer fires. */
    method Dispatch(t: Trigger)
      modifies this, element
      ensures State() == Step(closure, old(State()), t) && closure == old(closure)
    {
      match t
      case TimerFires =>
        if timer.Some? {
          timer := None;
          CleanOnTransitionEnd();
        }
      case Fire(e) =>
        if Listener(e, OnCancel) in listeners {
          CleanOnTransitionCancel();
        } else if Listener(e, OnEnd) in listeners {
          CleanOnTransitionEnd();
        }
    }

    /** slideAnimation. */
    method SlideAnimation(settings: TransitionSettings, hidden: bool, measure: CssValue -> Rect, rectOf: nat -> Rect)
      requires Idle(State())
      modifies this, element
      ensures State() == SlideStart(settings, hidden, old(State()), measure(Unset), rectOf)
      ensures ShouldAnimate(hidden, settings.instantaneousMode) && DeltaCoordinates(settings.origin, measure(Unset), rectOf).Ok? ==>
                closure == SlideClosure(settings, old(State()))
    {
      ghost var s := State();
      if !ShouldAnimate(hidden, settings.instantaneousMode) {
        settled := Resolved(Some(false));
        return;
      }
      var delta := element.GetDeltaCoordinates(settings.origin, measure, rectOf);
      if delta.Err? {
        settled := Rejected(delta.error);
        return;
      }
      ghost var de := DeltaEffects(settings.origin, s.style);
      assert State() == Emit(s, de) by {
        DeltaRestoresTransform(settings.origin, s.style);
      }
      var d := delta.value;
      var duration := settings.duration.GetOr(500.0);
      var originalZIndex := element.style.zIndex;
      var originalTransition := element.style.transition;
      closure := Closure(originalZIndex, originalTransition, CssOrNull(settings.finalTransform), settings.animationEnd, Some(true));
      var start := [WriteZIndex(ZIndexValue(settings.zIndex.GetOr(10))), WriteTransition(Unset),
                    WriteTransform(StartTransform(d, settings, None))]
                   + (if settings.animationStart then [CallAnimationStart] else []);
      WriteAll(start);
      listeners := SlideListeners;
      var toFinal := [WriteTransition(TransitionValue(duration, "linear")), WriteTransform(CssOrNull(settings.finalTransform))];
      WriteAll(toFinal);
      timer := Some(duration + 100.0);
      EmitAppend(s, de, start);
      EmitAppend(s, de + start, toFinal);
      assert de + start + toFinal == de + SlideEffects(settings, d);
    }

    /** showScreenCenterAnimation, given the element's box and the viewport size. */
    method ShowScreenCenterAnimation(settings: TransitionSettings, rect: Rect, viewport: Point)
      requires Idle(State())
      modifies this, element
      ensures State() == ScreenCenterStart(settings, old(State()), rect, viewport)
      ensures closure == CenterClosure(settings, old(State()))
    {
      var x := (rect.left + rect.Right()) / 2.0 - viewport.x / 2.0;
      var y := (rect.top + rect.Bottom()) / 2.0 - viewport.y / 2.0;
      var duration := settings.duration.GetOr(500.0);
      var originalZIndex := element.style.zIndex;
      var originalTransition := element.style.transition;
      closure := Closure(originalZIndex, originalTransition, CssOrNull(settings.finalTransform), false, None);
      WriteAll([WriteZIndex(ZIndexValue(settings.zIndex.GetOr(10))),
                WriteTransition(TransitionValue(duration, settings.transitionTimingFunction.GetOr("linear"))),
                WriteTransform(StartTransform(Point(x, y), settings, None))]);
      listeners := CenterListeners;
      timer := Some(duration + 100.0);
    }

    /** slideToAnimation. */
    method SlideToAnimation(settings: TransitionSettings, measure: CssValue -> Rect, rectOf: nat -> Rect)
      requires Idle(State())
      modifies this, element
      ensures State() == SlideToStart(settings, old(State()), measure(Unset), rectOf)
      ensures DeltaCoordinates(settings.origin, measure(Unset), rectOf).Ok? ==> closure == CenterClosure(settings, old(State()))
    {
      ghost var s := State();
      var delta := element.GetDeltaCoordinates(settings.origin, measure, rectOf);
      if delta.Err? {
        settled := Rejected(delta.error);
        return;
      }
      ghost var de := DeltaEffects(settings.origin, s.style);
      assert State() == Emit(s, de) by {
        DeltaRestoresTransform(settings.origin, s.style);
      }
      var duration := settings.duration.GetOr(500.0);
      var originalZIndex := element.style.zIndex;
      var originalTransition := element.style.transition;
      closure := Closure(originalZIndex, originalTransition, CssOrNull(settings.finalTransform), false, None);
      var writes := [WriteZIndex(ZIndexValue(settings.zIndex.GetOr(10))), WriteTransition(TransitionValue(duration, "linear")),
                     WriteTransform(StartTransform(delta.value, settings, Some(settings.origin.scale.GetOr(1.0))))];
      WriteAll(writes);
      listeners := CenterListeners;
      timer := Some(duration + 100.0);
      EmitAppend(s, de, writes);
    }
  }
}
