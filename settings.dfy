/**
 * Animation settings records, the shallow `{...base, ...top}` override the
 * managers build their effective settings with, the filling-space policy
 * gate and the bump and fade parallel-animation factories.
 */
module Settings {
  import opened JsValues
  import opened Dom

  /** `fillingSpaces`: 'all' | 'none' | 'from' | 'to'. */
  datatype FillingSpaces = AllSpaces | NoSpaces | FromSpace | ToSpace

  /** The kind of filling space: 'grow' where the element arrives, 'shrink' where it leaves. */
  datatype SpaceType = Grow | Shrink

  /** `applyTo`: 'wrapper' | 'intermediate' | 'element'. */
  datatype ApplyTo = WrapperTarget | IntermediateTarget | ElementTarget

  /** An extra animation played on another element during the main one. */
  datatype ParallelAnimation = ParallelAnimation(applyToElement: Option<Node>, applyTo: Option<ApplyTo>,
                                                 keyframes: Keyframes)

  /**
   * AnimationSettings and its extensions (bump, ignoreScale, ignoreRotation),
   * every property optional. A `parallelAnimations` entry may be null: the
   * bump factory returns null for a bump of 1.
   */
  datatype AnimationSettings = AnimationSettings(
    duration: Option<real>,
    easing: Option<string>,
    fillingSpaces: Option<FillingSpaces>,
    parallelAnimations: Option<seq<Option<ParallelAnimation>>>,
    bump: Nullish<real>,
    ignoreScale: Option<bool>,
    ignoreRotation: Option<bool>)

  /** `{}` (also what spreading `undefined` contributes). */
  const NoSettings := AnimationSettings(None, None, None, None, Undefined, None, None)

  /** A settings argument that may be one object or an array of per-leg objects. */
  datatype SettingsArg = One(settings: AnimationSettings) | Many(list: seq<AnimationSettings>)

  function OverrideOption<T>(base: Option<T>, top: Option<T>): Option<T> {
    if top.Some? then top else base
  }

  /** `{...base, ...top}`: each property of `top` that is present replaces that of `base`. */
  function Override(base: AnimationSettings, top: AnimationSettings): (r: AnimationSettings)
    ensures r.duration == (if top.duration.Some? then top.duration else base.duration)
    ensures r.bump == (if top.bump.Undefined? then base.bump else top.bump)
  {
    AnimationSettings(
      OverrideOption(base.duration, top.duration),
      OverrideOption(base.easing, top.easing),
      OverrideOption(base.fillingSpaces, top.fillingSpaces),
      OverrideOption(base.parallelAnimations, top.parallelAnimations),
      if top.bump.Undefined? then base.bump else top.bump,
      OverrideOption(base.ignoreScale, top.ignoreScale),
      OverrideOption(base.ignoreRotation, top.ignoreRotation))
  }

  /** `{}` changes nothing on either side of a spread. */
  lemma OverrideNeutral(s: AnimationSettings)
    ensures Override(NoSettings, s) == s && Override(s, NoSettings) == s
  {
  }

  /** Spreads nest: `{...a, ...{...b, ...c}}` is `{...{...a, ...b}, ...c}`. */
  lemma OverrideAssociative(a: AnimationSettings, b: AnimationSettings, c: AnimationSettings)
    ensures Override(a, Override(b, c)) == Override(Override(a, b), c)
  {
  }

  /** Spreading the same base again changes nothing (slideIn re-merges fadeIn's already merged settings). */
  lemma OverrideAbsorbs(base: AnimationSettings, s: AnimationSettings)
    ensures Override(base, Override(base, s)) == Override(base, s)
  {
  }

  /** The manager's own settings: `{duration: 500, ...animationSettings}`. */
  function ManagerSettings(s: AnimationSettings): (r: AnimationSettings)
    ensures r.duration.Some?
    ensures r.duration == (if s.duration.Some? then s.duration else Some(500.0))
  {
    Override(NoSettings.(duration := Some(500.0)), s)
  }

  /**
   * Precedence of effective settings: a property set at the call site wins,
   * else the manager's, else the built-in 500 ms duration.
   */
  lemma EffectivePrecedence(manager: AnimationSettings, call: AnimationSettings)
    ensures var r := Override(ManagerSettings(manager), call);
            && (call.duration.Some? ==> r.duration == call.duration)
            && (call.duration.None? && manager.duration.Some? ==> r.duration == manager.duration)
            && (call.duration.None? && manager.duration.None? ==> r.duration == Some(500.0))
            && (call.easing.Some? ==> r.easing == call.easing)
            && (call.easing.None? ==> r.easing == manager.easing)
            && (call.fillingSpaces.Some? ==> r.fillingSpaces == call.fillingSpaces)
            && (call.fillingSpaces.None? ==> r.fillingSpaces == manager.fillingSpaces)
            && (!call.bump.Undefined? ==> r.bump == call.bump)
            && (call.bump.Undefined? ==> r.bump == manager.bump)
  {
  }

  /** The timing of a surface animation: `{duration: 500, easing: 'ease-in-out', ...settings, iterations: 1}`. */
  function SurfaceTiming(s: AnimationSettings): (t: Timing)
    ensures s.duration.None? ==> t.duration == 500.0
    ensures s.easing.None? ==> t.easing == "ease-in-out"
    ensures s.duration.Some? ==> t.duration == s.duration.value
    ensures s.easing.Some? ==> t.easing == s.easing.value
  {
    Timing(s.duration.GetOr(500.0), s.easing.GetOr("ease-in-out"))
  }

  /** `{easing, ...s}`: a caller-level default easing under the settings. */
  function WithDefaultEasing(easing: string, s: AnimationSettings): (r: AnimationSettings)
    ensures SurfaceTiming(r).easing == (if s.easing.Some? then s.easing.value else easing)
    ensures SurfaceTiming(r).duration == SurfaceTiming(s).duration
  {
    Override(NoSettings.(easing := Some(easing)), s)
  }

  /**
   * The test of addAnimatedSpaceIfNecessary: the policy (default 'all')
   * lets a shrinking space through for 'all' and 'from', a growing one for
   * 'all' and 'to'.
   */
  predicate SpaceNeeded(s: AnimationSettings, kind: SpaceType) {
    var policy := s.fillingSpaces.GetOr(AllSpaces);
    (policy in {AllSpaces, FromSpace} && kind == Shrink) || (policy in {AllSpaces, ToSpace} && kind == Grow)
  }

  /** The gate's table: which policy lets which kind of space through. */
  lemma SpaceGateTable(s: AnimationSettings)
    ensures s.fillingSpaces.None? ==> SpaceNeeded(s, Grow) && SpaceNeeded(s, Shrink)
    ensures s.fillingSpaces == Some(AllSpaces) ==> SpaceNeeded(s, Grow) && SpaceNeeded(s, Shrink)
    ensures s.fillingSpaces == Some(NoSpaces) ==> !SpaceNeeded(s, Grow) && !SpaceNeeded(s, Shrink)
    ensures s.fillingSpaces == Some(FromSpace) ==> !SpaceNeeded(s, Grow) && SpaceNeeded(s, Shrink)
    ensures s.fillingSpaces == Some(ToSpace) ==> SpaceNeeded(s, Grow) && !SpaceNeeded(s, Shrink)
  {
  }

  /** The keyframes of a filling space: width and height 0 at the start (grow) or at the end (shrink). */
  function SpaceKeyframes(kind: SpaceType): (k: Keyframes)
    ensures k.SizeKeyframes?
    ensures kind == Grow <==> k.zeroAtOffset == 0.0
    ensures kind == Shrink <==> k.zeroAtOffset == 1.0
  {
    SizeKeyframes(if kind == Grow then 0.0 else 1.0)
  }

  /**
   * createBumpAnimation: no animation for a null bump or a bump of 1,
   * otherwise a lift of 30px with scale `bump ?? 1.2` at mid-animation,
   * applied to the default target (an intermediate wrapper layer).
   */
  function CreateBumpAnimation(bump: Nullish<real>): (r: Option<ParallelAnimation>)
    ensures r.None? <==> bump.Null? || bump == Defined(1.0)
    ensures r.Some? ==> r.value.applyToElement.None? && r.value.applyTo.None?
    ensures r.Some? ==> r.value.keyframes == BumpKeyframes(-30.0, bump.Or(1.2), 0.5)
    ensures r.Some? ==> r.value.keyframes.scale != 1.0
    ensures bump.Undefined? ==> r.Some? && r.value.keyframes.scale == 1.2
  {
    if bump.Null? || bump == Defined(1.0) then None
    else Some(ParallelAnimation(None, None, BumpKeyframes(-30.0, bump.Or(1.2), 0.5)))
  }

  datatype FadeType = FadeIn | FadeOut

  /** createFadeAnimation: opacity 0 to 1 for 'in', 1 to 0 for 'out'. */
  function CreateFadeAnimation(kind: FadeType): (r: ParallelAnimation)
    ensures r.applyToElement.None? && r.applyTo.None?
    ensures r.keyframes.OpacityKeyframes?
    ensures r.keyframes.fromOpacity in {0.0, 1.0} && r.keyframes.toOpacity == 1.0 - r.keyframes.fromOpacity
    ensures kind == FadeIn <==> r.keyframes.toOpacity == 1.0
  {
    ParallelAnimation(None, None, OpacityKeyframes(if kind == FadeIn then 0.0 else 1.0, if kind == FadeIn then 1.0 else 0.0))
  }

  /** Fading in and fading out play the same opacity keyframes in opposite directions. */
  lemma FadeInReversesFadeOut()
    ensures CreateFadeAnimation(FadeIn).keyframes.fromOpacity == CreateFadeAnimation(FadeOut).keyframes.toOpacity
    ensures CreateFadeAnimation(FadeIn).keyframes.toOpacity == CreateFadeAnimation(FadeOut).keyframes.fromOpacity
  {
  }

  /**
   * slideAndAttach's parallel animations: the bump built from `bump ?? 1.2`
   * first, then the caller's list.
   */
  function SlideParallelAnimations(all: AnimationSettings): (r: seq<Option<ParallelAnimation>>)
    ensures |r| == 1 + |all.parallelAnimations.GetOr([])|
    ensures r[1..] == all.parallelAnimations.GetOr([])
  {
    [CreateBumpAnimation(Defined(all.bump.Or(1.2)))] + all.parallelAnimations.GetOr([])
  }

  /**
   * The bump entry of slideAndAttach: `?? 1.2` turns a null bump into 1.2,
   * so the entry is null exactly when the bump is 1, and a null or absent
   * bump both give the 1.2 bump.
   */
  lemma SlideBumpEntry(all: AnimationSettings)
    ensures SlideParallelAnimations(all)[0].None? <==> all.bump == Defined(1.0)
    ensures all.bump.Null? || all.bump.Undefined? ==>
              SlideParallelAnimations(all)[0] == Some(ParallelAnimation(None, None, BumpKeyframes(-30.0, 1.2, 0.5)))
  {
  }

  /** The settings slideAndAttach animates with: the merged settings with the bump-first list. */
  function SlideSettings(all: AnimationSettings): (r: AnimationSettings)
    ensures r.parallelAnimations == Some(SlideParallelAnimations(all))
    ensures r.(parallelAnimations := all.parallelAnimations) == all
  {
    all.(parallelAnimations := Some(SlideParallelAnimations(all)))
  }

  /**
   * fadeIn / fadeOutAndDestroy's settings: the merged settings with the
   * fade first, then the CALL-SITE list (a list in the manager settings is
   * dropped).
   */
  function FadeSettings(all: AnimationSettings, call: AnimationSettings, kind: FadeType): (r: AnimationSettings)
    ensures r.parallelAnimations.Some? && |r.parallelAnimations.value| == 1 + |call.parallelAnimations.GetOr([])|
    ensures r.parallelAnimations.value[0] == Some(CreateFadeAnimation(kind))
    ensures r.parallelAnimations.value[1..] == call.parallelAnimations.GetOr([])
    ensures r.(parallelAnimations := all.parallelAnimations) == all
  {
    all.(parallelAnimations := Some([Some(CreateFadeAnimation(kind))] + call.parallelAnimations.GetOr([])))
  }

  /**
   * The two legs of slideToScreenCenterAndAttach / slideToElementAndAttach:
   * an array must have exactly two entries, leg i using entry i over the
   * manager settings; a single object (or none) serves both legs.
   */
  function TwoLegSettings(manager: AnimationSettings, arg: SettingsArg, message: string)
    : (r: Result<(AnimationSettings, AnimationSettings)>)
    ensures arg.Many? && |arg.list| != 2 <==> r.Err?
    ensures r.Err? ==> r.error == Thrown(message)
    ensures arg.Many? && |arg.list| == 2 ==>
              r == Ok((Override(manager, arg.list[0]), Override(manager, arg.list[1])))
    ensures arg.One? ==> r.Ok? && r.value.0 == r.value.1 == Override(manager, arg.settings)
  {
    match arg
    case Many(list) =>
      if |list| != 2 then Err(Thrown(message))
      else Ok((Override(manager, list[0]), Override(manager, list[1])))
    case One(s) => Ok((Override(manager, s), Override(manager, s)))
  }

  const TwoLegMessage := "slideToScreenCenterAndAttach animationSettings array must be made of 2 elements"
}
