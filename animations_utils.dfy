/**
 * The element-level helpers of the transition animations: an element's
 * inline style (the z-index, transition and transform properties the
 * animations write), `shouldAnimate` and `getDeltaCoordinates`.
 */
module AnimationUtils {
  import opened JsValues
  import opened Geometry

  /** An inline style value, as a structured value instead of a CSS string. */
  datatype CssValue =
    | Unset                                                     // '' (assigning null stores '' too)
    | Text(text: string)                                        // a value the page or a caller supplied
    | ZIndexValue(z: int)                                       // `${zIndex}`
    | TransitionValue(durationMs: real, timing: string)         // `transform ${duration}ms ${timing}`
    | TranslateValue(x: real, y: real, rotateDeg: real, scale: Option<real>)
                                                                // `translate(x px, y px) rotate(r deg)` [`scale(s)`]

  /** Assigning `value ?? null` to a style property. */
  function CssOrNull(value: Option<string>): (v: CssValue)
    ensures value.None? ==> v == Unset
    ensures v.Text? ==> value == Some(v.text)
    ensures value.Some? && value.value != "" ==> v == Text(value.value)
    ensures value == Some("") ==> v == Unset
  {
    if value.None? || value.value == "" then Unset else Text(value.value)
  }

  /** The three inline style properties the animations touch. */
  datatype Style = Style(zIndex: CssValue, transition: CssValue, transform: CssValue)

  /** What an animation does to its element, in order: style writes and the caller's callbacks. */
  datatype Effect =
    | WriteZIndex(value: CssValue)
    | WriteTransition(value: CssValue)
    | WriteTransform(value: CssValue)
    | CallAnimationStart
    | CallAnimationEnd

  function Perform(s: Style, e: Effect): (r: Style)
    ensures e.WriteZIndex? ==> r == s.(zIndex := e.value)
    ensures e.WriteTransition? ==> r == s.(transition := e.value)
    ensures e.WriteTransform? ==> r == s.(transform := e.value)
    ensures e.CallAnimationStart? || e.CallAnimationEnd? ==> r == s
  {
    match e
    case WriteZIndex(v) => s.(zIndex := v)
    case WriteTransition(v) => s.(transition := v)
    case WriteTransform(v) => s.(transform := v)
    case _ => s
  }

  /** The style after a sequence of effects. */
  function PerformAll(s: Style, es: seq<Effect>): Style
    decreases |es|
  {
    if |es| == 0 then s else PerformAll(Perform(s, es[0]), es[1..])
  }

  lemma {:induction false} PerformAllAppend(s: Style, es: seq<Effect>, fs: seq<Effect>)
    ensures PerformAll(s, es + fs) == PerformAll(PerformAll(s, es), fs)
    decreases |es|
  {
    if |es| == 0 {
      assert es + fs == fs;
    } else {
      assert (es + fs)[1..] == es[1..] + fs;
      PerformAllAppend(Perform(s, es[0]), es[1..], fs);
    }
  }

  lemma PerformAllOne(s: Style, e: Effect)
    ensures PerformAll(s, [e]) == Perform(s, e)
  {
    assert [e][1..] == [];
    assert PerformAll(s, [e]) == PerformAll(Perform(s, e), []);
  }

  lemma PerformAllTwo(s: Style, e1: Effect, e2: Effect)
    ensures PerformAll(s, [e1, e2]) == Perform(Perform(s, e1), e2)
  {
    assert [e1, e2][1..] == [e2];
    assert PerformAll(s, [e1, e2]) == PerformAll(Perform(s, e1), [e2]);
    PerformAllOne(Perform(s, e1), e2);
  }

  lemma PerformAllThree(s: Style, e1: Effect, e2: Effect, e3: Effect)
    ensures PerformAll(s, [e1, e2, e3]) == Perform(Perform(Perform(s, e1), e2), e3)
  {
    assert [e1, e2, e3][1..] == [e2, e3];
    assert PerformAll(s, [e1, e2, e3]) == PerformAll(Perform(s, e1), [e2, e3]);
    PerformAllTwo(Perform(s, e1), e2, e3);
  }

  /** Rewriting a property with the value it already has changes nothing. */
  lemma WriteBackTransform(s: Style)
    ensures PerformAll(s, [WriteTransform(Unset), WriteTransform(s.transform)]) == s
  {
    PerformAllTwo(s, WriteTransform(Unset), WriteTransform(s.transform));
  }

  /** An element whose inline style the animations write, with the log of what they did. */
  class StyledElement {
    var style: Style
    var effects: seq<Effect>

    constructor (initial: Style)
      ensures style == initial && effects == []
    {
      style := initial;
      effects := [];
    }

    /** One style write or callback, logged. */
    method Do(e: Effect)
      modifies this
      ensures style == Perform(old(style), e) && effects == old(effects) + [e]
    {
      style := Perform(style, e);
      effects := effects + [e];
    }

    /**
     * getDeltaCoordinates: with an origin rectangle (given or measured on
     * `fromElement`), clears the inline transform to measure the element's
     * own box, then writes the saved transform back.
     */
    method GetDeltaCoordinates(settings: DeltaSettings, measure: CssValue -> Rect, rectOf: nat -> Rect)
      returns (r: Result<Point>)
      modifies this
      ensures r == DeltaCoordinates(settings, measure(Unset), rectOf)
      ensures style == old(style)
      ensures effects == old(effects) + DeltaEffects(settings, old(style))
    {
      if settings.fromDelta.None? && settings.fromRect.None? && settings.fromElement.None? {
        return Err(Thrown(DeltaMessage));
      }
      var x := 0.0;
      var y := 0.0;
      if settings.fromDelta.Some? {
        x := settings.fromDelta.value.x;
        y := settings.fromDelta.value.y;
      } else {
        var originBR := if settings.fromRect.Some? then settings.fromRect.value else rectOf(settings.fromElement.value);
        var originalTransform := style.transform;
        Do(WriteTransform(Unset));
        var destinationBR := measure(style.transform);
        Do(WriteTransform(originalTransform));
        x := (destinationBR.left + destinationBR.Right()) / 2.0 - (originBR.left + originBR.Right()) / 2.0;
        y := (destinationBR.top + destinationBR.Bottom()) / 2.0 - (originBR.top + originBR.Bottom()) / 2.0;
      }
      if settings.scale.Some? && settings.scale.value != 0.0 {
        x := x / settings.scale.value;
        y := y / settings.scale.value;
      }
      r := Ok(Point(x, y));
    }
  }

  /** The origin settings getDeltaCoordinates reads. */
  datatype DeltaSettings = DeltaSettings(fromDelta: Option<Point>, fromRect: Option<Rect>,
                                         fromElement: Option<nat>, scale: Option<real>)

  const DeltaMessage := "[bga-animation] fromDelta, fromRect or fromElement need to be set"

  /** The style writes getDeltaCoordinates makes: clear, then restore, when it measures. */
  function DeltaEffects(settings: DeltaSettings, s: Style): seq<Effect> {
    if settings.fromDelta.None? && (settings.fromRect.Some? || settings.fromElement.Some?)
    then [WriteTransform(Unset), WriteTransform(s.transform)]
    else []
  }

  /** The style is the same after getDeltaCoordinates' writes as before. */
  lemma DeltaRestoresTransform(settings: DeltaSettings, s: Style)
    ensures PerformAll(s, DeltaEffects(settings, s)) == s
  {
    if DeltaEffects(settings, s) != [] {
      WriteBackTransform(s);
    }
  }

  /** `shouldAnimate`: false exactly when the page is hidden or the game is in instantaneous mode. */
  predicate ShouldAnimate(hidden: bool, instantaneousMode: bool): (r: bool)
    ensures hidden ==> !r
    ensures instantaneousMode ==> !r
    ensures !hidden && !instantaneousMode ==> r
  {
    !hidden && !instantaneousMode
  }

  /** Division by a truthy (non-zero) scale. */
  function Unscaled(p: Point, scale: Option<real>): Point {
    if scale.Some? && scale.value != 0.0 then Point(p.x / scale.value, p.y / scale.value) else p
  }

  /** The difference of the centres of two rectangles, `to` minus `from`. */
  function CenterDelta(to: Rect, from: Rect): Point {
    Point((to.left + to.Right()) / 2.0 - (from.left + from.Right()) / 2.0,
          (to.top + to.Bottom()) / 2.0 - (from.top + from.Bottom()) / 2.0)
  }

  /**
   * getDeltaCoordinates as a value: an error without any origin; the given
   * delta verbatim; else destination centre minus origin centre, the origin
   * being `fromRect` or else `fromElement`'s box; then divided by a truthy
   * scale.
   */
  function DeltaCoordinates(settings: DeltaSettings, destination: Rect, rectOf: nat -> Rect): (r: Result<Point>)
    ensures r.Err? <==> settings.fromDelta.None? && settings.fromRect.None? && settings.fromElement.None?
    ensures r.Err? ==> r.error == Thrown(DeltaMessage)
  {
    if settings.fromDelta.None? && settings.fromRect.None? && settings.fromElement.None? then
      Err(Thrown(DeltaMessage))
    else if settings.fromDelta.Some? then
      Ok(Unscaled(settings.fromDelta.value, settings.scale))
    else
      var origin := if settings.fromRect.Some? then settings.fromRect.value else rectOf(settings.fromElement.value);
      Ok(Unscaled(CenterDelta(destination, origin), settings.scale))
  }

  /** The centre formula of getDeltaCoordinates is the difference of the rectangle centres. */
  lemma CenterDeltaIsCenterDifference(to: Rect, from: Rect)
    ensures CenterDelta(to, from) == Point(Center(to).x - Center(from).x, Center(to).y - Center(from).y)
  {
  }

  /** A given delta wins over any rectangle or element. */
  lemma DeltaVerbatim(settings: DeltaSettings, destination: Rect, rectOf: nat -> Rect)
    requires settings.fromDelta.Some?
    ensures DeltaCoordinates(settings, destination, rectOf) == Ok(Unscaled(settings.fromDelta.value, settings.scale))
    ensures settings.scale.None? ==> DeltaCoordinates(settings, destination, rectOf) == Ok(settings.fromDelta.value)
  {
  }

  /** Without a delta, `fromRect` is preferred: `fromElement` and its box do not matter. */
  lemma DeltaPrefersRect(settings: DeltaSettings, destination: Rect, rectOf: nat -> Rect, rectOf': nat -> Rect)
    requires settings.fromDelta.None? && settings.fromRect.Some?
    ensures DeltaCoordinates(settings, destination, rectOf) ==
            DeltaCoordinates(settings.(fromElement := None), destination, rectOf')
    ensures DeltaCoordinates(settings, destination, rectOf) ==
            Ok(Unscaled(CenterDelta(destination, settings.fromRect.value), settings.scale))
  {
  }

  /** A truthy scale divides both components: multiplying back gives the unscaled delta. */
  lemma UnscaledRoundTrip(p: Point, scale: Option<real>)
    ensures scale.Some? && scale.value != 0.0 ==>
              Unscaled(p, scale).x * scale.value == p.x && Unscaled(p, scale).y * scale.value == p.y
    ensures scale.None? || scale.value == 0.0 ==> Unscaled(p, scale) == p
  {
  }

  /** The delta maps the destination centre back onto the origin centre (before any scaling). */
  lemma DeltaMovesCenterBack(settings: DeltaSettings, destination: Rect, rectOf: nat -> Rect)
    requires settings.fromDelta.None? && settings.scale.None?
    requires settings.fromRect.Some? || settings.fromElement.Some?
    ensures var origin := if settings.fromRect.Some? then settings.fromRect.value else rectOf(settings.fromElement.value);
            var d := DeltaCoordinates(settings, destination, rectOf).value;
            Center(destination).x - d.x == Center(origin).x && Center(destination).y - d.y == Center(origin).y
  {
  }
}
