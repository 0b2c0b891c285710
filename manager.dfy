/**
 * AnimationManager: the public entry points of the animation engine. Each
 * one asks the game whether it animates at all (`bgaAnimationsActive`, an
 * `active` parameter here), merges the call settings over the manager's,
 * moves the element onto the animation surface, animates it there with
 * filling spaces where it leaves and where it arrives, and puts it back in
 * the page.
 *
 * An async entry point is a method returning an Outcome: a throw in its
 * synchronous part, or a rejected promise it awaits, is a Fail. The
 * elements of `Promise.all([...])` are evaluated in order:
 * addAnimatedSpaceIfNecessary throws at once, while
 * animateOnAnimationSurface, being async, turns its throw into a rejected
 * promise that `Promise.all` only sees once the whole array has been
 * evaluated. A rejection skips the `.then` that puts the element back, so
 * the element stays in its wrapper on the surface.
 */
module Manager {
  import opened JsValues
  import opened Geometry
  import opened Dom
  import opened Settings
  import opened BaseManager
  import Sequencing

  const GameMessage := "You must set your game as the first parameter of AnimationManager"

  /** `longer` begins with `shorter`: the log only grows. */
  predicate Extends(longer: seq<DomEvent>, shorter: seq<DomEvent>) {
    |shorter| <= |longer| && longer[..|shorter|] == shorter
  }

  lemma ExtendsTransitive(a: seq<DomEvent>, b: seq<DomEvent>, c: seq<DomEvent>)
    requires Extends(b, a) && Extends(c, b)
    ensures Extends(c, a)
  {
    assert c[..|a|] == c[..|b|][..|a|];
  }

  lemma ExtendsAt(longer: seq<DomEvent>, shorter: seq<DomEvent>, i: nat)
    requires Extends(longer, shorter) && i < |shorter|
    ensures longer[i] == shorter[i]
  {
    assert longer[..|shorter|][i] == longer[i];
  }

  /** A log that extends `shorter + [e]` extends `shorter` and holds `e` right after it. */
  lemma ExtendsSnoc(longer: seq<DomEvent>, shorter: seq<DomEvent>, e: DomEvent)
    requires Extends(longer, shorter + [e])
    ensures Extends(longer, shorter) && |shorter| < |longer| && longer[|shorter|] == e
  {
    assert longer[..|shorter|] == longer[..|shorter| + 1][..|shorter|];
    assert longer[|shorter|] == longer[..|shorter| + 1][|shorter|];
  }

  lemma ExtendsAppend(s: seq<DomEvent>, t: seq<DomEvent>)
    ensures Extends(s + t, s)
  {
    assert (s + t)[..|s|] == s;
  }

  /** What was logged before a later removal stays where it was. */
  lemma DestroyKeepsLog(shorter: seq<DomEvent>, longer: seq<DomEvent>, lo: nat, at: nat, main: DomEvent,
                        list: seq<Option<ParallelAnimation>>, timing: Timing, space: Option<Node>, spaceTiming: Timing)
    requires Extends(longer, shorter) && LoggedLeaving(shorter, lo, at, main, list, timing, space, spaceTiming)
    ensures LoggedLeaving(longer, lo, at, main, list, timing, space, spaceTiming)
  {
    ExtendsAt(longer, shorter, at);
    if space.Some? {
      ExtendsAt(longer, shorter, at - 1);
    }
    ExtendsStarted(longer, shorter, at, list, timing);
  }

  /** The parallel animations of a surface animation logged at `at` follow it. */
  predicate StartedAt(log: seq<DomEvent>, at: nat, list: seq<Option<ParallelAnimation>>, timing: Timing) {
    at + 1 + |list| <= |log| && Started(log[at + 1..at + 1 + |list|], list, timing)
  }

  lemma ExtendsStarted(longer: seq<DomEvent>, shorter: seq<DomEvent>, at: nat, list: seq<Option<ParallelAnimation>>,
                       timing: Timing)
    requires Extends(longer, shorter) && StartedAt(shorter, at, list, timing)
    ensures StartedAt(longer, at, list, timing)
  {
    assert longer[at + 1..at + 1 + |list|] == longer[..|shorter|][at + 1..at + 1 + |list|];
  }

  /** The shrinking space, if any, was logged just before the event at `at`, after `lo`. */
  predicate ShrinkLogged(log: seq<DomEvent>, lo: nat, at: nat, space: Option<Node>, timing: Timing) {
    space.Some? ==> lo < at <= |log| && log[at - 1] == Animated(space.value, SpaceKeyframes(Shrink), timing)
  }

  /**
   * A leaving animation in the log: the surface animation `main` at `at`,
   * after `lo`, followed by its parallel animations, and the shrinking
   * space, if any, just before it.
   */
  predicate LoggedLeaving(log: seq<DomEvent>, lo: nat, at: nat, main: DomEvent, list: seq<Option<ParallelAnimation>>,
                          timing: Timing, space: Option<Node>, spaceTiming: Timing)
  {
    LoggedAt(log, lo, at, main, list, timing) && ShrinkLogged(log, lo, at, space, spaceTiming)
  }

  /** The surface animation `main` at `at`, after `lo`, followed by its parallel animations. */
  predicate LoggedAt(log: seq<DomEvent>, lo: nat, at: nat, main: DomEvent, list: seq<Option<ParallelAnimation>>, timing: Timing) {
    lo <= at < |log| && log[at] == main && StartedAt(log, at, list, timing)
  }

  lemma ExtendsLoggedAt(longer: seq<DomEvent>, shorter: seq<DomEvent>, lo: nat, at: nat, main: DomEvent,
                        list: seq<Option<ParallelAnimation>>, timing: Timing)
    requires Extends(longer, shorter) && LoggedAt(shorter, lo, at, main, list, timing)
    ensures LoggedAt(longer, lo, at, main, list, timing)
  {
    ExtendsAt(longer, shorter, at);
    ExtendsStarted(longer, shorter, at, list, timing);
  }

  /**
   * The end of a fade-out: the element and the removed nodes (the space,
   * if any, then the wrapper) are out of the page, their removals close
   * the log, and the surface animation `main`, its parallel animations and
   * the shrinking space were logged after `lo`.
   */
  predicate FadedOut(log: seq<DomEvent>, parent: map<Node, Node>, lo: nat, element: Node, wrapper: Node,
                     removed: seq<Option<Node>>, at: nat, main: DomEvent, list: seq<Option<ParallelAnimation>>,
                     timing: Timing, spaceNeeded: bool, spaceTiming: Timing)
  {
    && element !in parent
    && |removed| == 2 && removed[1] == Some(wrapper)
    && (removed[0].Some? <==> spaceNeeded)
    && (forall k :: 0 <= k < |removed| && removed[k].Some? ==> removed[k].value !in parent)
    && 1 + |Removals(removed)| <= |log|
    && log[|log| - 1 - |Removals(removed)|..] == [Removed(element)] + Removals(removed)
    && LoggedLeaving(log, lo, at, main, list, timing, removed[0], spaceTiming)
  }

  /**
   * The two legs in the log, after `lo`: the first leg's animation at
   * `at1`, the shrinking space's removal, if any, at `removedAt`, then the
   * second leg's animation at `at2`.
   */
  predicate LoggedLegs(log: seq<DomEvent>, lo: nat, at1: nat, leg1: DomEvent, shrink: Option<Node>, removedAt: nat,
                       at2: nat, leg2: DomEvent)
  {
    && lo <= at1 < at2 < |log|
    && log[at1] == leg1 && log[at2] == leg2
    && (shrink.Some? ==> at1 < removedAt < at2 && log[removedAt] == Removed(shrink.value))
  }

  lemma ExtendsLegs(longer: seq<DomEvent>, shorter: seq<DomEvent>, lo: nat, at1: nat, leg1: DomEvent, shrink: Option<Node>,
                    removedAt: nat, at2: nat, leg2: DomEvent)
    requires Extends(longer, shorter) && LoggedLegs(shorter, lo, at1, leg1, shrink, removedAt, at2, leg2)
    ensures LoggedLegs(longer, lo, at1, leg1, shrink, removedAt, at2, leg2)
  {
    ExtendsAt(longer, shorter, at1);
    ExtendsAt(longer, shorter, at2);
    if shrink.Some? {
      ExtendsAt(longer, shorter, removedAt);
    }
  }

  /** Each leg's parallel animations follow its surface animation, with the leg's own timing. */
  predicate LegsStarted(log: seq<DomEvent>, at1: nat, first: AnimationSettings, at2: nat, second: AnimationSettings) {
    StartedAt(log, at1, ParallelList(first), SurfaceTiming(first)) && StartedAt(log, at2, ParallelList(second), SurfaceTiming(second))
  }

  lemma ExtendsLegsStarted(longer: seq<DomEvent>, shorter: seq<DomEvent>, at1: nat, first: AnimationSettings, at2: nat,
                           second: AnimationSettings)
    requires Extends(longer, shorter) && LegsStarted(shorter, at1, first, at2, second)
    ensures LegsStarted(longer, at1, first, at2, second)
  {
    ExtendsStarted(longer, shorter, at1, ParallelList(first), SurfaceTiming(first));
    ExtendsStarted(longer, shorter, at2, ParallelList(second), SurfaceTiming(second));
  }

  /** The second leg, logged after the first one. */
  lemma LegsFollow(log1: seq<DomEvent>, log: seq<DomEvent>, lo: nat, at1: nat, leg1: DomEvent, shrink: Option<Node>,
                   removedAt: nat, at2: nat, leg2: DomEvent)
    requires Extends(log, log1) && lo <= at1 < |log1| && log1[at1] == leg1
    requires shrink.Some? ==> at1 < removedAt < |log1| && log1[removedAt] == Removed(shrink.value)
    requires |log1| <= at2 < |log| && log[at2] == leg2
    ensures LoggedLegs(log, lo, at1, leg1, shrink, removedAt, at2, leg2)
  {
    ExtendsAt(log, log1, at1);
    if shrink.Some? {
      ExtendsAt(log, log1, removedAt);
    }
  }

  /** The removed nodes are out of the page, and their removals, in list order, close the log. */
  predicate RemovedLast(log: seq<DomEvent>, parent: map<Node, Node>, removed: seq<Option<Node>>) {
    && (forall k :: 0 <= k < |removed| && removed[k].Some? ==> removed[k].value !in parent)
    && |log| >= |Removals(removed)|
    && log[|log| - |Removals(removed)|..] == Removals(removed)
  }

  /** The child lists after `to.insertBefore(x, ref)` succeeds. */
  ghost function Attached(children: map<Node, seq<Node>>, parent: map<Node, Node>, x: Node, to: Node, ref: Option<Node>)
    : (r: map<Node, seq<Node>>)
    requires to in children && (x in parent ==> parent[x] in children)
    ensures r.Keys == children.Keys
  {
    assert Detached(children, parent, x).Keys == children.Keys;
    Moved(children, parent, x, to, EffectiveReference(children, parent, x, ref))
  }

  /**
   * The middle matrix of slideToElementAndAttach: the centre matrix, without
   * scale and rotation, of the new wrapper `w` around `x`, measured once `x`
   * is attached to `to` and wrapped on the surface.
   */
  ghost function WrapperMiddle(b: Browser, children: map<Node, seq<Node>>, parent: map<Node, Node>, w: Node, x: Node, to: Node,
                               ref: Option<Node>, surface: Node): Option<Matrix>
    requires to in children && surface in children && (x in parent ==> parent[x] in children)
  {
    WrappedCenterMatrix(b, Attached(children, parent, x, to, ref), parent[x := to], x, w, surface, true)
  }

  /** The element's full matrix once attached to `to` before `ref`: where the slides to `to` end. */
  ghost function DestinationMatrix(b: Browser, children: map<Node, seq<Node>>, parent: map<Node, Node>, nextId: nat, x: Node,
                                   to: Node, ref: Option<Node>): Option<Matrix>
    requires to in children && (x in parent ==> parent[x] in children)
  {
    Some(FullMatrixOf(b, Attached(children, parent, x, to, ref), parent[x := to], nextId, x))
  }

  /**
   * The end of a two-leg slide: the growing space, if any, and the wrapper
   * removed last; the first leg from `from` to `middle`, then the second
   * from `middle` to `to`, each followed by its own parallel animations.
   */
  predicate LegsDone(log: seq<DomEvent>, parent: map<Node, Node>, lo: nat, removed: seq<Option<Node>>, shrink: Option<Node>,
                     at1: nat, removedAt: nat, at2: nat, wrapper: Node, from: Option<Matrix>, middle: Option<Matrix>,
                     to: Option<Matrix>, first: AnimationSettings, second: AnimationSettings)
  {
    && |removed| == 2 && removed[1] == Some(wrapper)
    && (removed[0].Some? <==> SpaceNeeded(second, Grow))
    && (shrink.Some? <==> SpaceNeeded(first, Shrink))
    && RemovedLast(log, parent, removed)
    && LoggedLegs(log, lo, at1, Animated(wrapper, TransformKeyframes(from, middle), SurfaceTiming(first)), shrink, removedAt,
                  at2, Animated(wrapper, TransformKeyframes(middle, to), SurfaceTiming(second)))
    && LegsStarted(log, at1, first, at2, second)
  }

  /** Every node of the list lies in `[lo, hi)`: nodes created between two moments. */
  predicate Within(ws: seq<Option<Node>>, lo: nat, hi: nat) {
    forall k :: 0 <= k < |ws| && ws[k].Some? ==> lo <= ws[k].value < hi
  }

  lemma WithinThree(a: Option<Node>, b: Option<Node>, c: Option<Node>, lo: nat, hi: nat)
    requires a.Some? ==> lo <= a.value < hi
    requires b.Some? ==> lo <= b.value < hi
    requires c.Some? ==> lo <= c.value < hi
    ensures Within([a, b, c], lo, hi)
  {
  }

  lemma WithinTwo(a: Option<Node>, b: Option<Node>, lo: nat, hi: nat)
    requires a.Some? ==> lo <= a.value < hi
    requires b.Some? ==> lo <= b.value < hi
    ensures Within([a, b], lo, hi)
  {
  }

  /** A matrix that only translates. */
  predicate Unrotated(m: Matrix) {
    m.a == 1.0 && m.b == 0.0 && m.c == 0.0 && m.d == 1.0
  }

  /** The elements the settings argument of the two-leg slides names exist. */
  predicate ArgElementsExist(arg: SettingsArg, nextId: nat) {
    match arg
    case One(s) => NamedElementsExist(ParallelList(s), nextId)
    case Many(list) => forall i :: 0 <= i < |list| ==> NamedElementsExist(ParallelList(list[i]), nextId)
  }

  /**
   * The middle matrix of slideToScreenCenterAndAttach: a translation by the
   * scroll offset plus half of what the viewport leaves around a box of the
   * element's size.
   */
  function ScreenCenterMatrix(box: Rect, scroll: Point, viewport: Point): (m: Matrix)
    ensures m.a == 1.0 && m.b == 0.0 && m.c == 0.0 && m.d == 1.0
    ensures (m.e - scroll.x) + box.width / 2.0 == viewport.x / 2.0
    ensures (m.f - scroll.y) + box.height / 2.0 == viewport.y / 2.0
  {
    Translation(scroll.x + (viewport.x - box.width) / 2.0, scroll.y + (viewport.y - box.height) / 2.0)
  }

  /** The elements the parallel animations of the settings name exist. */
  predicate ElementsExist(s: AnimationSettings, nextId: nat) {
    NamedElementsExist(ParallelList(s), nextId)
  }

  /** Merged settings name only elements that one of the two names. */
  lemma OverrideElementsExist(base: AnimationSettings, top: AnimationSettings, nextId: nat)
    requires ElementsExist(base, nextId) && ElementsExist(top, nextId)
    ensures ElementsExist(Override(base, top), nextId)
  {
  }

  /** Prepending an entry that names no element keeps the elements named. */
  lemma PrependElementsExist(entry: Option<ParallelAnimation>, list: seq<Option<ParallelAnimation>>, nextId: nat)
    requires entry.Some? ==> entry.value.applyToElement.None?
    requires NamedElementsExist(list, nextId)
    ensures NamedElementsExist([entry] + list, nextId)
  {
    var l := [entry] + list;
    forall k | 0 <= k < |l| && l[k].Some? && l[k].value.applyToElement.Some?
      ensures l[k].value.applyToElement.value < nextId
    {
      assert k > 0 && l[k] == list[k - 1];
    }
  }

  /** The elements named by slideAndAttach's settings exist. */
  lemma SlideElementsExist(all: AnimationSettings, easing: string, nextId: nat)
    requires ElementsExist(all, nextId)
    ensures ElementsExist(WithDefaultEasing(easing, SlideSettings(all)), nextId)
  {
    PrependElementsExist(CreateBumpAnimation(Defined(all.bump.Or(1.2))), ParallelList(all), nextId);
  }

  /**
   * The surface settings of fadeIn (`'ease-out'` by default, through slideIn)
   * and fadeOutAndDestroy (`'ease-in'`): the fade first, then only the
   * call's own parallel animations; the call's duration and easing over
   * the manager's.
   */
  lemma FadeSurface(manager: AnimationSettings, call: AnimationSettings, kind: FadeType, easing: string)
    ensures var s := WithDefaultEasing(easing, Override(manager, FadeSettings(Override(manager, call), call, kind)));
            && ParallelList(s) == [Some(CreateFadeAnimation(kind))] + ParallelList(call)
            && SurfaceTiming(s) == Timing(call.duration.GetOr(manager.duration.GetOr(500.0)),
                                          call.easing.GetOr(manager.easing.GetOr(easing)))
  {
    var all := Override(manager, call);
    assert all.duration == (if call.duration.Some? then call.duration else manager.duration);
    assert all.easing == (if call.easing.Some? then call.easing else manager.easing);
  }

  /** A surface animation whose parallel list opens with fadeIn's opacity animation. */
  lemma FadeInLogged(log: seq<DomEvent>, lo: nat, at: nat, wrapper: Node, fromMatrix: Option<Matrix>, toMatrix: Matrix,
                     list: seq<Option<ParallelAnimation>>, timing: Timing)
    requires LoggedAt(log, lo, at, Animated(wrapper, TransformKeyframes(fromMatrix, Some(toMatrix)), timing), list, timing)
    requires |list| > 0 && list[0] == Some(CreateFadeAnimation(FadeType.FadeIn))
    ensures lo <= at < |log| && log[at].Animated? && log[at].target == wrapper && log[at].timing == timing
    ensures log[at].keyframes == TransformKeyframes(fromMatrix, Some(toMatrix))
    ensures StartedAt(log, at, list, timing)
    ensures at + 1 < |log| && log[at + 1].Animated? && log[at + 1].keyframes == OpacityKeyframes(0.0, 1.0)
  {
    assert log[at + 1..at + 1 + |list|][0] == log[at + 1];
  }

  /** fadeOutAndDestroy's surface settings name only elements the call names. */
  lemma FadeOutElementsExist(manager: AnimationSettings, call: AnimationSettings, nextId: nat)
    requires ElementsExist(call, nextId)
    ensures ElementsExist(FadeOutSurfaceSettings(manager, call), nextId)
  {
    PrependElementsExist(Some(CreateFadeAnimation(FadeOut)), ParallelList(call), nextId);
  }

  /** fadeOutAndDestroy's surface settings `{easing: 'ease-in', ...manager, ...final}`. */
  function FadeOutSurfaceSettings(manager: AnimationSettings, call: AnimationSettings): AnimationSettings {
    Override(Override(NoSettings.(easing := Some("ease-in")), manager), FadeSettings(Override(manager, call), call, FadeOut))
  }

  /**
   * fadeOutAndDestroy's surface settings have fadeIn's shape with
   * 'ease-in': the fade from 1 to 0 before the call's own list, the call's
   * duration and easing over the manager's.
   */
  lemma FadeOutSurface(manager: AnimationSettings, call: AnimationSettings)
    ensures var s := FadeOutSurfaceSettings(manager, call);
            && ParallelList(s) == [Some(CreateFadeAnimation(FadeOut))] + ParallelList(call)
            && SurfaceTiming(s) == Timing(call.duration.GetOr(manager.duration.GetOr(500.0)),
                                          call.easing.GetOr(manager.easing.GetOr("ease-in")))
  {
    var final := FadeSettings(Override(manager, call), call, FadeOut);
    OverrideAssociative(NoSettings.(easing := Some("ease-in")), manager, final);
    FadeSurface(manager, call, FadeOut, "ease-in");
  }

  /**
   * addFloatingElement's `{bump: null, ...settings}` leaves the floating
   * surface animation as it is: its timing, its parallel animations and
   * its `ignoreScale` do not read the bump.
   */
  lemma NullBumpUnused(manager: AnimationSettings, call: AnimationSettings)
    ensures var with := WithDefaultEasing("ease-out", Override(manager, Override(NoSettings.(bump := Null), call)));
            var without := WithDefaultEasing("ease-out", Override(manager, call));
            && SurfaceTiming(with) == SurfaceTiming(without)
            && ParallelList(with) == ParallelList(without)
            && with.ignoreScale == without.ignoreScale
  {
  }

  /**
   * The timing of slideAndAttach's surface animation: the merged duration
   * (500 when unset) and the merged easing, 'ease-in-out' when unset; the
   * bump and the caller's parallel animations do not change it.
   */
  lemma SlideTiming(manager: AnimationSettings, call: AnimationSettings)
    ensures var all := Override(manager, call);
            SurfaceTiming(WithDefaultEasing("ease-in-out", SlideSettings(all))) ==
            Timing(if call.duration.Some? then call.duration.value else manager.duration.GetOr(500.0),
                   if call.easing.Some? then call.easing.value else manager.easing.GetOr("ease-in-out"))
  {
    var all := Override(manager, call);
    assert all.duration == (if call.duration.Some? then call.duration else manager.duration);
    assert all.easing == (if call.easing.Some? then call.easing else manager.easing);
  }

  class AnimationManager {
    const base: BaseAnimationManager
    const animationSettings: AnimationSettings

    ghost predicate Valid()
      reads base.doc
    {
      base.Valid() && ElementsExist(animationSettings, base.doc.nextId)
    }

    /** The fields of a manager: its base and `{duration: 500, ...settings}`. */
    constructor (base: BaseAnimationManager, settings: AnimationSettings)
      ensures this.base == base && animationSettings == ManagerSettings(settings)
    {
      this.base := base;
      animationSettings := ManagerSettings(settings);
    }

    /** addAnimatedSpaceIfNecessary as the entry points see it: the space, if the policy asks for one, and its animation. */
    method FillingSpace(element: Node, parent: Option<Node>, kind: SpaceType, s: AnimationSettings, insertBefore: Option<Node>)
      returns (r: Result<Option<Node>>)
      requires Valid() && (parent.Some? ==> base.doc.Exists(parent.value))
      requires insertBefore.Some? ==> base.doc.Exists(insertBefore.value)
      modifies base.doc
      ensures Valid() && base.doc.nextId >= old(base.doc.nextId)
      ensures r.Err? ==> (r.error == TypeError || r.error == NotFoundError) && base.doc.log == old(base.doc.log)
      ensures r.Ok? ==> (r.value.Some? <==> SpaceNeeded(s, kind))
      ensures r.Ok? && r.value.None? ==> base.doc.log == old(base.doc.log)
      ensures r.Ok? && r.value.Some? ==>
                r.value.value == old(base.doc.nextId) && base.doc.nextId == r.value.value + 1 &&
                base.doc.log == old(base.doc.log) + [Animated(r.value.value, SpaceKeyframes(kind), SurfaceTiming(s))]
      ensures Extends(base.doc.log, old(base.doc.log))
      ensures r.Ok? && r.value.None? ==>
                base.doc.children == old(base.doc.children) && base.doc.parent == old(base.doc.parent) &&
                base.doc.classes == old(base.doc.classes) && base.doc.nextId == old(base.doc.nextId)
      ensures r.Ok? && r.value.Some? ==>
                && parent.Some? && base.doc.parent == old(base.doc.parent)[r.value.value := parent.value]
                && base.doc.children == SpaceInserted(old(base.doc.children), r.value.value, parent.value, insertBefore)
                && base.doc.classes == old(base.doc.classes)[r.value.value := {SpaceClass, SpaceKindClass(kind)}]
      ensures r.Ok? && r.value.Some? ==> RightBefore(base.doc.children[parent.value], r.value.value, insertBefore)
    {
      r := base.AddAnimatedSpaceIfNecessary(element, parent, kind, s, insertBefore);
      if r.Ok? && r.value.Some? {
        ExtendsAppend(old(base.doc.log), [Animated(r.value.value, SpaceKeyframes(kind), SurfaceTiming(s))]);
        assert insertBefore.Some? ==> insertBefore.value in old(base.doc.children)[parent.value];
        SpacePlaced(old(base.doc.children), old(base.doc.parent), r.value.value, parent.value, insertBefore);
      }
    }

    /**
     * animateOnAnimationSurface as the entry points see it: a missing matrix
     * throws before anything starts; else the wrapper's animation, then the
     * parallel ones. When the wrapper heads a chain of layers down to `e`,
     * the chain stays one and nothing older than `lo` changes its children.
     */
    method Surface(wrapper: Node, fromMatrix: Option<Matrix>, toMatrix: Option<Matrix>, s: AnimationSettings,
                   ghost e: Node, ghost lo: nat) returns (r: Outcome)
      requires Valid() && base.doc.Exists(wrapper) && ElementsExist(s, base.doc.nextId)
      modifies base.doc
      ensures Valid() && base.doc.nextId >= old(base.doc.nextId)
      ensures r.Fail? ==> r.error in {TypeError, HierarchyRequestError, InvalidStateError}
      ensures r.Fail? ==> (r.error == InvalidStateError <==> fromMatrix.None? || toMatrix.None?)
      ensures fromMatrix.None? || toMatrix.None? ==>
                r == Fail(InvalidStateError) && base.doc.log == old(base.doc.log) &&
                base.doc.children == old(base.doc.children) && base.doc.parent == old(base.doc.parent) &&
                base.doc.classes == old(base.doc.classes) && base.doc.nextId == old(base.doc.nextId)
      ensures Extends(base.doc.log, old(base.doc.log))
      ensures fromMatrix.Some? && toMatrix.Some? ==>
                && Extends(base.doc.log, old(base.doc.log) + [Animated(wrapper, TransformKeyframes(fromMatrix, toMatrix), SurfaceTiming(s))])
                && |old(base.doc.log)| < |base.doc.log|
                && base.doc.log[|old(base.doc.log)|] == Animated(wrapper, TransformKeyframes(fromMatrix, toMatrix), SurfaceTiming(s))
      ensures r.Pass? ==> |base.doc.log| == |old(base.doc.log)| + 1 + |ParallelList(s)| &&
                          StartedAt(base.doc.log, |old(base.doc.log)|, ParallelList(s), SurfaceTiming(s))
      ensures r.Pass? && LayerChain(old(base.doc.children), old(base.doc.classes), wrapper, e, lo, old(base.doc.nextId)) && wrapper != e ==>
                && LayerChain(base.doc.children, base.doc.classes, wrapper, e, lo, base.doc.nextId)
                && ListsKept(old(base.doc.children), old(base.doc.classes), base.doc.children, lo)
                && ClassesKept(old(base.doc.classes), base.doc.classes)
                && StartedInChain(base.doc.log[|old(base.doc.log)| + 1..], ParallelList(s), wrapper, e,
                                  old(base.doc.children), old(base.doc.classes), lo)
    {
      var a := base.AnimateOnAnimationSurface(wrapper, fromMatrix, toMatrix, s, e, lo);
      if fromMatrix.Some? && toMatrix.Some? {
        ExtendsSnoc(base.doc.log, old(base.doc.log), Animated(wrapper, TransformKeyframes(fromMatrix, toMatrix), SurfaceTiming(s)));
      }
      r := if a.Ok? then Pass else Fail(a.error);
      if r.Pass? {
        assert base.doc.log[|old(base.doc.log)| + 1..] == base.doc.log[|old(base.doc.log)| + 1..|old(base.doc.log)| + 1 + |ParallelList(s)|];
      }
    }

    /**
     * The synchronous start of slideAndAttach and of the two-leg slides
     * (the steps of startAttachAnimation): the origin recorded, the element
     * attached to its destination and measured there, then wrapped on the
     * surface.
     */
    method Depart(element: Node, toElement: Node, insertBefore: Option<Node>, b: Browser)
      returns (r: Result<RunningAnimation>)
      requires Valid() && base.doc.Exists(element) && base.doc.Exists(toElement)
      modifies base.doc
      ensures Valid() && base.doc.nextId >= old(base.doc.nextId) && base.doc.log == old(base.doc.log)
      ensures !InsertAllowed(old(base.doc.parent), old(base.doc.nextId), element, Some(toElement), insertBefore) ==>
                r.Err? && base.doc.children == old(base.doc.children) && base.doc.parent == old(base.doc.parent)
      ensures r.Ok? ==>
                && r.value.wrapper == Some(old(base.doc.nextId)) && old(base.doc.nextId) < base.doc.nextId
                && element < old(base.doc.nextId)
                && (r.value.fromParent.Some? ==> r.value.fromParent.value < old(base.doc.nextId))
                && (r.value.fromNextSibling.Some? ==> r.value.fromNextSibling.value < old(base.doc.nextId))
                && r.value.fromParent == ParentOf(old(base.doc.parent), element)
                && r.value.fromNextSibling == old(base.doc.NextSibling(element))
                && r.value.fromMatrix == Some(FullMatrixOf(b, old(base.doc.children), old(base.doc.parent), old(base.doc.nextId), element))
                && r.value.toMatrix == DestinationMatrix(b, old(base.doc.children), old(base.doc.parent), old(base.doc.nextId),
                                                         element, toElement, insertBefore)
      ensures r.Ok? && !old(base.doc.HasClass(element, WrapperClass)) ==> base.Chained(old(base.doc.nextId), element)
      ensures r.Ok? ==>
                var c0, p0, n0 := old(base.doc.children), old(base.doc.parent), old(base.doc.nextId);
                && base.doc.nextId == n0 + 1
                && base.doc.parent == p0[element := toElement][element := n0][n0 := base.animationSurface]
                && base.doc.children == AttachedEnclosed(c0, p0, element, toElement, insertBefore, n0, base.animationSurface)
    {
      assert forall c :: c in base.doc.parent ==> base.doc.parent[c] < base.doc.nextId;
      r := base.StartAttach(element, toElement, insertBefore, b);
    }

    /**
     * The `.then` of the entry points that put the element back: attached to
     * `toElement` before the filling space if there is one, else before
     * `nextSibling`; then every result's wrapper removed (endRunningAnimation).
     */
    method PutBack(element: Node, toElement: Option<Node>, space: Option<Node>, nextSibling: Option<Node>,
                   results: seq<Option<Node>>, ghost lo: nat) returns (r: Outcome)
      requires Valid() && element < lo <= base.doc.nextId && (toElement.Some? ==> base.doc.Exists(toElement.value))
      requires space.Some? ==> base.doc.Exists(space.value)
      requires nextSibling.Some? ==> base.doc.Exists(nextSibling.value)
      requires Within(results, lo, base.doc.nextId)
      modifies base.doc
      ensures Valid() && base.doc.nextId == old(base.doc.nextId)
      ensures r.Fail? ==> base.doc.log == old(base.doc.log)
      ensures r.Pass? ==> toElement.Some? && base.doc.log == old(base.doc.log) + Removals(results)
      ensures r.Pass? ==> forall k :: 0 <= k < |results| && results[k].Some? ==> results[k].value !in base.doc.parent
      ensures r.Pass? ==> element in base.doc.parent && base.doc.parent[element] == toElement.value
      ensures var ref := if space.Some? then space else nextSibling;
              r.Pass? && ref != Some(element) && (ref.Some? ==> ref.value < lo) ==>
                RightBefore(base.doc.children[toElement.value], element, ref)
      ensures r.Pass? && space.Some? && space.value in RemovedNodes(results) && nextSibling != Some(element) &&
              (nextSibling.Some? ==> nextSibling.value < lo) && toElement.value in old(base.doc.children) &&
              PlacedBefore(old(base.doc.children)[toElement.value], space.value, nextSibling, RemovedNodes(results)) ==>
                RightBefore(base.doc.children[toElement.value], element, nextSibling)
    {
      var ref := if space.Some? then space else nextSibling;
      ghost var c0, p0 := base.doc.children, base.doc.parent;
      r := base.AttachToElement(element, toElement, ref);
      if r.Fail? {
        return;
      }
      var to := toElement.value;
      ghost var skip := RemovedNodes(results);
      ghost var target := ref;
      if ref != Some(element) {
        RightBeforePlaced(base.doc.children[to], element, ref, skip);
      }
      if space.Some? && space.value in skip && nextSibling != Some(element) && (nextSibling.Some? ==> nextSibling.value < lo) &&
         to in c0 && PlacedBefore(c0[to], space.value, nextSibling, skip) {
        MovedInFront(c0, p0, element, to, space.value, nextSibling, skip);
        target := nextSibling;
      }
      assert element !in skip && (target.Some? && target.value < lo ==> target.value !in skip);
      base.RemoveAll(results, to, element, target);
    }

    /**
     * slideAndAttach. Inactive: a plain attach. Active: records the origin,
     * attaches the element to its destination and measures it there, wraps
     * it on the surface, then (in array order) a growing space at the
     * destination, the surface animation with the bump first, a shrinking
     * space at the origin; once all finish, the element goes back in its
     * destination, before the growing space, and the spaces and the wrapper
     * are removed.
     */
    method SlideAndAttach(element: Node, toElement: Node, settings: AnimationSettings, insertBefore: Option<Node>,
                          active: bool, b: Browser) returns (r: Outcome, ghost removed: seq<Option<Node>>, ghost at: nat)
      requires Valid() && base.doc.Exists(element) && base.doc.Exists(toElement)
      requires insertBefore.Some? ==> base.doc.Exists(insertBefore.value)
      requires ElementsExist(settings, base.doc.nextId)
      modifies base.doc
      ensures Valid()
      ensures !InsertAllowed(old(base.doc.parent), old(base.doc.nextId), element, Some(toElement), insertBefore) ==>
                r.Fail? && base.doc.children == old(base.doc.children) && base.doc.parent == old(base.doc.parent) &&
                base.doc.log == old(base.doc.log)
      ensures !active ==>
                base.doc.log == old(base.doc.log) && base.doc.nextId == old(base.doc.nextId) &&
                (r.Pass? <==> InsertAllowed(old(base.doc.parent), old(base.doc.nextId), element, Some(toElement), insertBefore)) &&
                (r.Pass? ==> base.doc.parent == old(base.doc.parent)[element := toElement] &&
                             base.doc.children == Attached(old(base.doc.children), old(base.doc.parent), element, toElement, insertBefore))
      ensures r.Pass? ==> element in base.doc.parent && base.doc.parent[element] == toElement
      ensures active && r.Pass? ==>
                var all := Override(animationSettings, settings);
                && all.bump != Defined(1.0)
                && |removed| == 3 && removed[1] == Some(old(base.doc.nextId))
                && (removed[0].Some? <==> SpaceNeeded(all, Grow))
                && (removed[2].Some? <==> SpaceNeeded(all, Shrink))
                && RemovedLast(base.doc.log, base.doc.parent, removed)
      ensures active && r.Pass? ==>
                var c0, p0, n0 := old(base.doc.children), old(base.doc.parent), old(base.doc.nextId);
                var all := Override(animationSettings, settings);
                var timing := SurfaceTiming(WithDefaultEasing("ease-in-out", SlideSettings(all)));
                LoggedAt(base.doc.log, |old(base.doc.log)|, at,
                         Animated(n0, TransformKeyframes(Some(FullMatrixOf(b, c0, p0, n0, element)),
                                                         DestinationMatrix(b, c0, p0, n0, element, toElement, insertBefore)), timing),
                         SlideParallelAnimations(all), timing)
      ensures active && r.Pass? && insertBefore != Some(element) &&
              (removed[0].None? || !old(base.doc.HasClass(element, WrapperClass))) ==>
                RightBefore(base.doc.children[toElement], element, insertBefore)
    {
      removed, at := [], 0;
      if !active {
        r := base.AttachToElement(element, Some(toElement), insertBefore);
      } else {
        OverrideElementsExist(animationSettings, settings, base.doc.nextId);
        r, removed, at := Slide(element, toElement, Override(animationSettings, settings), insertBefore, b);
      }
    }

    /** The active path of slideAndAttach, with the merged settings `all`. */
    method Slide(element: Node, toElement: Node, all: AnimationSettings, insertBefore: Option<Node>, b: Browser)
      returns (r: Outcome, ghost removed: seq<Option<Node>>, ghost at: nat)
      requires Valid() && base.doc.Exists(element) && base.doc.Exists(toElement)
      requires insertBefore.Some? ==> base.doc.Exists(insertBefore.value)
      requires ElementsExist(all, base.doc.nextId)
      modifies base.doc
      ensures Valid()
      ensures !InsertAllowed(old(base.doc.parent), old(base.doc.nextId), element, Some(toElement), insertBefore) ==>
                r.Fail? && base.doc.children == old(base.doc.children) && base.doc.parent == old(base.doc.parent) &&
                base.doc.log == old(base.doc.log)
      ensures r.Pass? ==>
                && element in base.doc.parent && base.doc.parent[element] == toElement
                && all.bump != Defined(1.0)
                && |removed| == 3 && removed[1] == Some(old(base.doc.nextId))
                && (removed[0].Some? <==> SpaceNeeded(all, Grow))
                && (removed[2].Some? <==> SpaceNeeded(all, Shrink))
                && RemovedLast(base.doc.log, base.doc.parent, removed)
      ensures r.Pass? ==>
                var c0, p0, n0 := old(base.doc.children), old(base.doc.parent), old(base.doc.nextId);
                var timing := SurfaceTiming(WithDefaultEasing("ease-in-out", SlideSettings(all)));
                LoggedAt(base.doc.log, |old(base.doc.log)|, at,
                         Animated(n0, TransformKeyframes(Some(FullMatrixOf(b, c0, p0, n0, element)),
                                                         DestinationMatrix(b, c0, p0, n0, element, toElement, insertBefore)), timing),
                         SlideParallelAnimations(all), timing)
      ensures r.Pass? && insertBefore != Some(element) && (removed[0].None? || !old(base.doc.HasClass(element, WrapperClass))) ==>
                RightBefore(base.doc.children[toElement], element, insertBefore)
    {
      removed, at := [], 0;
      ghost var n0 := base.doc.nextId;
      var start := Depart(element, toElement, insertBefore, b);
      if start.Err? {
        return Fail(start.error), removed, at;
      }
      var ra := start.value;
      r, removed, at := SlideFrom(element, toElement, insertBefore, ra.fromParent, ra.fromNextSibling, ra.wrapper.value,
                              ra.fromMatrix, ra.toMatrix, all);
    }

    /** slideAndAttach once the element is wrapped: the three promises, then the element put back. */
    method SlideFrom(element: Node, toElement: Node, insertBefore: Option<Node>, fromParent: Option<Node>,
                     fromNextSibling: Option<Node>, wrapper: Node, fromMatrix: Option<Matrix>, toMatrix: Option<Matrix>,
                     all: AnimationSettings) returns (r: Outcome, ghost removed: seq<Option<Node>>, ghost at: nat)
      requires Valid() && element < wrapper && base.doc.Exists(toElement) && base.doc.Exists(wrapper)
      requires insertBefore.Some? ==> base.doc.Exists(insertBefore.value)
      requires fromParent.Some? ==> base.doc.Exists(fromParent.value)
      requires fromNextSibling.Some? ==> base.doc.Exists(fromNextSibling.value)
      requires ElementsExist(all, base.doc.nextId)
      modifies base.doc
      ensures Valid() && base.doc.nextId >= old(base.doc.nextId)
      ensures r.Pass? ==>
                && element in base.doc.parent && base.doc.parent[element] == toElement
                && all.bump != Defined(1.0)
                && |removed| == 3 && removed[1] == Some(wrapper)
                && (removed[0].Some? <==> SpaceNeeded(all, Grow))
                && (removed[2].Some? <==> SpaceNeeded(all, Shrink))
                && RemovedLast(base.doc.log, base.doc.parent, removed)
                && LoggedAt(base.doc.log, |old(base.doc.log)|, at,
                            Animated(wrapper, TransformKeyframes(fromMatrix, toMatrix),
                                     SurfaceTiming(WithDefaultEasing("ease-in-out", SlideSettings(all)))),
                            SlideParallelAnimations(all), SurfaceTiming(WithDefaultEasing("ease-in-out", SlideSettings(all))))
      ensures r.Pass? && insertBefore != Some(element) && (insertBefore.Some? ==> insertBefore.value < wrapper) &&
              (removed[0].None? || (toElement < wrapper && old(base.Chained(wrapper, element)))) ==>
                RightBefore(base.doc.children[toElement], element, insertBefore)
    {
      removed := [];
      var spaces;
      spaces, at := SlideLegs(element, toElement, insertBefore, fromParent, fromNextSibling, wrapper,
                                      fromMatrix, toMatrix, all);
      if spaces.Err? {
        return Fail(spaces.error), removed, at;
      }
      var grow := spaces.value.0;
      WithinThree(grow, Some(wrapper), spaces.value.1, wrapper, base.doc.nextId);
      ghost var log1 := base.doc.log;
      assert grow.Some? ==> [grow, Some(wrapper), spaces.value.1][0] == grow;
      r, removed := Land(element, Some(toElement), grow, insertBefore, [grow, Some(wrapper), spaces.value.1], wrapper);
      if r.Pass? {
        ExtendsLoggedAt(base.doc.log, log1, |old(base.doc.log)|, at,
                        Animated(wrapper, TransformKeyframes(fromMatrix, toMatrix),
                                 SurfaceTiming(WithDefaultEasing("ease-in-out", SlideSettings(all)))),
                        SlideParallelAnimations(all), SurfaceTiming(WithDefaultEasing("ease-in-out", SlideSettings(all))));
      }
    }

    /** The `.then` of slideAndAttach: PutBack, with what the animations logged kept in place. */
    method Land(element: Node, toElement: Option<Node>, grow: Option<Node>, insertBefore: Option<Node>, results: seq<Option<Node>>,
                ghost lo: nat) returns (r: Outcome, ghost removed: seq<Option<Node>>)
      requires Valid() && element < lo <= base.doc.nextId && (toElement.Some? ==> base.doc.Exists(toElement.value))
      requires grow.Some? ==> base.doc.Exists(grow.value)
      requires insertBefore.Some? ==> base.doc.Exists(insertBefore.value)
      requires Within(results, lo, base.doc.nextId)
      modifies base.doc
      ensures Valid() && removed == results && base.doc.nextId == old(base.doc.nextId)
      ensures r.Fail? ==> base.doc.log == old(base.doc.log)
      ensures r.Pass? ==>
                && toElement.Some? && element in base.doc.parent && base.doc.parent[element] == toElement.value
                && RemovedLast(base.doc.log, base.doc.parent, results)
                && Extends(base.doc.log, old(base.doc.log))
      ensures r.Pass? && grow.None? && insertBefore != Some(element) && (insertBefore.Some? ==> insertBefore.value < lo) ==>
                RightBefore(base.doc.children[toElement.value], element, insertBefore)
      ensures r.Pass? && grow.Some? && grow.value in RemovedNodes(results) && insertBefore != Some(element) &&
              (insertBefore.Some? ==> insertBefore.value < lo) && toElement.value in old(base.doc.children) &&
              PlacedBefore(old(base.doc.children)[toElement.value], grow.value, insertBefore, RemovedNodes(results)) ==>
                RightBefore(base.doc.children[toElement.value], element, insertBefore)
    {
      removed := results;
      r := PutBack(element, toElement, grow, insertBefore, results, lo);
      if r.Pass? {
        ExtendsAppend(old(base.doc.log), Removals(results));
      }
    }

    /**
     * The three promises of slideAndAttach, in array order: a growing space
     * at the destination, the surface animation, a shrinking space at the
     * origin. A space throws at once; the surface animation's error is a
     * rejection, seen after the whole array was evaluated. On success, the
     * two spaces (null when the policy skips them).
     */
    method SlideLegs(element: Node, toElement: Node, insertBefore: Option<Node>, fromParent: Option<Node>,
                     fromNextSibling: Option<Node>, wrapper: Node, fromMatrix: Option<Matrix>, toMatrix: Option<Matrix>,
                     all: AnimationSettings) returns (r: Result<(Option<Node>, Option<Node>)>, ghost mainAt: nat)
      requires Valid() && base.doc.Exists(element) && base.doc.Exists(toElement) && base.doc.Exists(wrapper)
      requires insertBefore.Some? ==> base.doc.Exists(insertBefore.value)
      requires fromParent.Some? ==> base.doc.Exists(fromParent.value)
      requires fromNextSibling.Some? ==> base.doc.Exists(fromNextSibling.value)
      requires ElementsExist(all, base.doc.nextId)
      modifies base.doc
      ensures Valid() && base.doc.nextId >= old(base.doc.nextId)
      ensures Extends(base.doc.log, old(base.doc.log))
      ensures r.Ok? ==>
                && all.bump != Defined(1.0)
                && (r.value.0.Some? <==> SpaceNeeded(all, Grow))
                && (r.value.1.Some? <==> SpaceNeeded(all, Shrink))
                && (r.value.0.Some? ==> old(base.doc.nextId) <= r.value.0.value < base.doc.nextId)
                && (r.value.1.Some? ==> old(base.doc.nextId) <= r.value.1.value < base.doc.nextId)
                && LoggedAt(base.doc.log, |old(base.doc.log)|, mainAt,
                            Animated(wrapper, TransformKeyframes(fromMatrix, toMatrix),
                                     SurfaceTiming(WithDefaultEasing("ease-in-out", SlideSettings(all)))),
                            SlideParallelAnimations(all), SurfaceTiming(WithDefaultEasing("ease-in-out", SlideSettings(all))))
      ensures r.Ok? && r.value.0.Some? && toElement < wrapper && old(base.Chained(wrapper, element)) ==>
                PlacedBefore(base.doc.children[toElement], r.value.0.value, insertBefore,
                             RemovedNodes([r.value.0, Some(wrapper), r.value.1]))
    {
      mainAt := 0;
      var final := SlideSettings(all);
      SlideElementsExist(all, "ease-in-out", base.doc.nextId);
      var grow, surface;
      grow, surface, mainAt := GrowAndSurface(element, toElement, insertBefore, wrapper, fromMatrix, toMatrix, all,
                                              WithDefaultEasing("ease-in-out", final));
      if grow.Err? {
        return Err(grow.error), mainAt;
      }
      ghost var log2 := base.doc.log;
      ghost var c2, p2 := base.doc.children, base.doc.parent;
      var shrink := FillingSpace(element, fromParent, Shrink, all, fromNextSibling);
      ExtendsTransitive(old(base.doc.log), log2, base.doc.log);
      if shrink.Err? {
        return Err(shrink.error), mainAt;
      }
      if surface.Fail? {
        return Err(surface.error), mainAt;
      }
      if old(base.Chained(wrapper, element)) && toElement < wrapper && grow.value.Some? {
        ShrinkKeepsGrow(c2, p2, base.doc.children, grow.value.value, wrapper, shrink.value, fromParent, fromNextSibling,
                        toElement, insertBefore);
      }
      assert ParallelList(WithDefaultEasing("ease-in-out", final)) == SlideParallelAnimations(all);
      SlideBumpEntry(all);
      ExtendsLoggedAt(base.doc.log, log2, |old(base.doc.log)|, mainAt,
                      Animated(wrapper, TransformKeyframes(fromMatrix, toMatrix), SurfaceTiming(WithDefaultEasing("ease-in-out", final))),
                      SlideParallelAnimations(all), SurfaceTiming(WithDefaultEasing("ease-in-out", final)));
      r := Ok((grow.value, shrink.value));
    }

    /** The shrinking space, if any, keeps the growing space placed before `insertBefore`, with only removed nodes after it. */
    lemma ShrinkKeepsGrow(c2: map<Node, seq<Node>>, p2: map<Node, Node>, c3: map<Node, seq<Node>>, grow: Node, wrapper: Node,
                          shrink: Option<Node>, fromParent: Option<Node>, fromNextSibling: Option<Node>, toElement: Node,
                          insertBefore: Option<Node>)
      requires Consistent(c2, p2) && toElement in c2 && RightBefore(c2[toElement], grow, insertBefore)
      requires shrink.None? ==> c3 == c2
      requires shrink.Some? ==> && fromParent.Some? && fromParent.value in c2 && shrink.value !in c2
                                && c3 == SpaceInserted(c2, shrink.value, fromParent.value, fromNextSibling)
      ensures toElement in c3 && PlacedBefore(c3[toElement], grow, insertBefore, RemovedNodes([Some(grow), Some(wrapper), shrink]))
    {
      var skip := RemovedNodes([Some(grow), Some(wrapper), shrink]);
      RightBeforePlaced(c2[toElement], grow, insertBefore, skip);
      if shrink.Some? {
        assert [Some(grow), Some(wrapper), shrink][2] == shrink;
        SpaceKeepsPlaced(c2, p2, shrink.value, fromParent.value, fromNextSibling, toElement, grow, insertBefore, skip);
      }
    }

    /**
     * A growing space at the destination (a throw, before the animation
     * starts), then the surface animation. When the wrapper heads a chain
     * down to the element, the space ends before `insertBefore`.
     */
    method GrowAndSurface(element: Node, toElement: Node, insertBefore: Option<Node>, wrapper: Node,
                          fromMatrix: Option<Matrix>, toMatrix: Option<Matrix>, spaces: AnimationSettings, s: AnimationSettings)
      returns (grow: Result<Option<Node>>, surface: Outcome, ghost at: nat)
      requires Valid() && base.doc.Exists(element) && base.doc.Exists(toElement) && base.doc.Exists(wrapper)
      requires insertBefore.Some? ==> base.doc.Exists(insertBefore.value)
      requires ElementsExist(s, base.doc.nextId)
      modifies base.doc
      ensures Valid() && base.doc.nextId >= old(base.doc.nextId)
      ensures Extends(base.doc.log, old(base.doc.log))
      ensures grow.Err? ==> grow.error in {TypeError, NotFoundError} && base.doc.log == old(base.doc.log)
      ensures surface.Fail? ==> surface.error in {TypeError, HierarchyRequestError, InvalidStateError}
      ensures grow.Ok? ==>
                && (grow.value.Some? <==> SpaceNeeded(spaces, Grow))
                && (grow.value.Some? ==> old(base.doc.nextId) <= grow.value.value < base.doc.nextId)
      ensures grow.Ok? && surface.Pass? ==>
                && |old(base.doc.log)| <= at < |base.doc.log|
                && LoggedAt(base.doc.log, |old(base.doc.log)|, at, Animated(wrapper, TransformKeyframes(fromMatrix, toMatrix), SurfaceTiming(s)),
                            ParallelList(s), SurfaceTiming(s))
                && forall k :: 0 <= k < |ParallelList(s)| ==> ParallelList(s)[k].Some?
      ensures grow.Ok? && surface.Pass? && grow.value.Some? && toElement < wrapper && old(base.Chained(wrapper, element)) ==>
                RightBefore(base.doc.children[toElement], grow.value.value, insertBefore)
    {
      at, surface := 0, Pass;
      grow := ChainedSpace(element, Some(toElement), Grow, spaces, insertBefore, wrapper);
      if grow.Err? {
        return;
      }
      ghost var log1 := base.doc.log;
      ghost var c1, k1 := base.doc.children, base.doc.classes;
      surface := Surface(wrapper, fromMatrix, toMatrix, s, element, wrapper);
      ExtendsTransitive(old(base.doc.log), log1, base.doc.log);
      if surface.Pass? {
        at := |log1|;
        ExtendsAt(base.doc.log, log1 + [Animated(wrapper, TransformKeyframes(fromMatrix, toMatrix), SurfaceTiming(s))], at);
        if grow.value.Some? && toElement < wrapper && old(base.Chained(wrapper, element)) {
          assert toElement in c1 && toElement in k1;
          ListKept(c1, k1, base.doc.children, wrapper, toElement);
        }
      }
    }

    /** A filling space in `parent` before `insertBefore`; a chain from the wrapper down to the element stays one. */
    method ChainedSpace(element: Node, parent: Option<Node>, kind: SpaceType, spaces: AnimationSettings,
                        insertBefore: Option<Node>, ghost wrapper: Node) returns (r: Result<Option<Node>>)
      requires Valid() && (parent.Some? ==> base.doc.Exists(parent.value))
      requires insertBefore.Some? ==> base.doc.Exists(insertBefore.value)
      modifies base.doc
      ensures Valid() && base.doc.nextId >= old(base.doc.nextId) && Extends(base.doc.log, old(base.doc.log))
      ensures r.Err? ==> r.error in {TypeError, NotFoundError} && base.doc.log == old(base.doc.log)
      ensures r.Ok? ==>
                && (r.value.Some? <==> SpaceNeeded(spaces, kind))
                && (r.value.Some? ==> old(base.doc.nextId) <= r.value.value < base.doc.nextId)
                && (r.value.Some? ==> parent.Some? && base.doc.parent == old(base.doc.parent)[r.value.value := parent.value])
                && (r.value.Some? ==> RightBefore(base.doc.children[parent.value], r.value.value, insertBefore))
                && (old(base.Chained(wrapper, element)) && (parent.Some? ==> parent.value < wrapper) ==> base.Chained(wrapper, element))
    {
      ghost var c0, k0, n0 := base.doc.children, base.doc.classes, base.doc.nextId;
      r := FillingSpace(element, parent, kind, spaces, insertBefore);
      if r.Ok? && r.value.Some? && old(base.Chained(wrapper, element)) && parent.value < wrapper {
        SpaceKeepsChain(c0, k0, n0, r.value.value, parent.value, insertBefore, {SpaceClass, SpaceKindClass(kind)},
                        wrapper, element, wrapper);
      }
    }

    /**
     * The first leg of the two-leg slides: `Promise.all` of the surface
     * animation to the middle matrix and a shrinking space at the origin
     * (the space's throw wins over the animation's rejection); then the
     * shrinking space, if any, is removed.
     */
    method FirstLeg(element: Node, wrapper: Node, fromParent: Option<Node>, fromNextSibling: Option<Node>,
                    fromMatrix: Option<Matrix>, middle: Option<Matrix>, first: AnimationSettings)
      returns (r: Result<Option<Node>>, ghost at1: nat, ghost removedAt: nat)
      requires Valid() && base.doc.Exists(element) && base.doc.Exists(wrapper)
      requires fromParent.Some? ==> base.doc.Exists(fromParent.value)
      requires fromNextSibling.Some? ==> base.doc.Exists(fromNextSibling.value)
      requires ElementsExist(first, base.doc.nextId)
      modifies base.doc
      ensures Valid() && base.doc.nextId >= old(base.doc.nextId)
      ensures Extends(base.doc.log, old(base.doc.log))
      ensures r.Ok? ==>
                && (r.value.Some? <==> SpaceNeeded(first, Shrink))
                && (r.value.Some? ==> old(base.doc.nextId) <= r.value.value < base.doc.nextId && r.value.value !in base.doc.parent)
                && |old(base.doc.log)| <= at1 < |base.doc.log|
                && base.doc.log[at1] == Animated(wrapper, TransformKeyframes(fromMatrix, middle), SurfaceTiming(first))
                && (r.value.Some? ==> at1 < removedAt == |base.doc.log| - 1 && base.doc.log[removedAt] == Removed(r.value.value))
                && StartedAt(base.doc.log, at1, ParallelList(first), SurfaceTiming(first))
      ensures r.Ok? && (fromParent.Some? ==> fromParent.value < wrapper) && old(base.Chained(wrapper, element)) ==>
                base.Chained(wrapper, element)
    {
      at1, removedAt := 0, 0;
      ghost var log0 := base.doc.log;
      ghost var main := Animated(wrapper, TransformKeyframes(fromMatrix, middle), SurfaceTiming(first));
      var surface := Surface(wrapper, fromMatrix, middle, first, element, wrapper);
      ghost var log1 := base.doc.log;
      ghost var chained := surface.Pass? && (fromParent.Some? ==> fromParent.value < wrapper) && old(base.Chained(wrapper, element));
      var shrink := ChainedSpace(element, fromParent, Shrink, first, fromNextSibling, wrapper);
      ExtendsTransitive(log0, log1, base.doc.log);
      if shrink.Err? {
        return Err(shrink.error), at1, removedAt;
      }
      if surface.Fail? {
        return Err(surface.error), at1, removedAt;
      }
      at1 := |log0|;
      ExtendsTransitive(log0 + [main], log1, base.doc.log);
      ExtendsAt(base.doc.log, log0 + [main], at1);
      ghost var log2 := base.doc.log;
      ghost var c2, p2 := base.doc.children, base.doc.parent;
      base.RemoveIfSet(shrink.value, 0, 0, None, {});
      if chained && shrink.value.Some? {
        DetachKeepsChain(c2, p2, base.doc.classes, shrink.value.value, wrapper, element, wrapper, base.doc.nextId);
      }
      if shrink.value.Some? {
        removedAt := |log2|;
        ExtendsAppend(log2, [Removed(shrink.value.value)]);
      } else {
        assert base.doc.log == log2 + [];
      }
      ExtendsTransitive(log0, log2, base.doc.log);
      ExtendsTransitive(log0 + [main], log2, base.doc.log);
      ExtendsAt(base.doc.log, log0 + [main], at1);
      ExtendsTransitive(log1, log2, base.doc.log);
      ExtendsStarted(base.doc.log, log1, at1, ParallelList(first), SurfaceTiming(first));
      r := Ok(shrink.value);
    }

    /**
     * The second leg of the two-leg slides: `Promise.all` of a growing space
     * at the destination (a throw, before the animation starts) and the
     * surface animation from the middle matrix to the destination.
     */
    method SecondLeg(element: Node, toElement: Node, insertBefore: Option<Node>, wrapper: Node,
                     middle: Option<Matrix>, toMatrix: Option<Matrix>, second: AnimationSettings)
      returns (r: Result<Option<Node>>, ghost at2: nat)
      requires Valid() && base.doc.Exists(element) && base.doc.Exists(toElement) && base.doc.Exists(wrapper)
      requires insertBefore.Some? ==> base.doc.Exists(insertBefore.value)
      requires ElementsExist(second, base.doc.nextId)
      modifies base.doc
      ensures Valid() && base.doc.nextId >= old(base.doc.nextId)
      ensures Extends(base.doc.log, old(base.doc.log))
      ensures r.Ok? ==>
                && (r.value.Some? <==> SpaceNeeded(second, Grow))
                && (r.value.Some? ==> old(base.doc.nextId) <= r.value.value < base.doc.nextId)
                && |old(base.doc.log)| <= at2 < |base.doc.log|
                && base.doc.log[at2] == Animated(wrapper, TransformKeyframes(middle, toMatrix), SurfaceTiming(second))
                && StartedAt(base.doc.log, at2, ParallelList(second), SurfaceTiming(second))
      ensures r.Ok? && r.value.Some? && toElement < wrapper && old(base.Chained(wrapper, element)) ==>
                RightBefore(base.doc.children[toElement], r.value.value, insertBefore)
    {
      var grow, surface;
      grow, surface, at2 := GrowAndSurface(element, toElement, insertBefore, wrapper, middle, toMatrix, second, second);
      if grow.Err? {
        return Err(grow.error), at2;
      }
      if surface.Fail? {
        return Err(surface.error), at2;
      }
      r := Ok(grow.value);
    }

    /**
     * The asynchronous part of the two-leg slides, after the element was
     * attached and wrapped: the first leg, the second leg, then the element
     * back in its destination and the growing space and the wrapper removed.
     */
    method TwoLegs(element: Node, toElement: Node, insertBefore: Option<Node>, wrapper: Node,
                   fromParent: Option<Node>, fromNextSibling: Option<Node>, fromMatrix: Option<Matrix>,
                   middle: Option<Matrix>, toMatrix: Option<Matrix>, first: AnimationSettings, second: AnimationSettings,
                   ghost lo: nat)
      returns (r: Outcome, ghost removed: seq<Option<Node>>, ghost shrink: Option<Node>,
               ghost at1: nat, ghost removedAt: nat, ghost at2: nat)
      requires Valid() && element < lo <= wrapper < base.doc.nextId && base.doc.Exists(toElement)
      requires insertBefore.Some? ==> insertBefore.value < lo
      requires fromParent.Some? ==> base.doc.Exists(fromParent.value)
      requires fromNextSibling.Some? ==> base.doc.Exists(fromNextSibling.value)
      requires ElementsExist(first, base.doc.nextId) && ElementsExist(second, base.doc.nextId)
      modifies base.doc
      ensures Valid() && base.doc.nextId >= old(base.doc.nextId)
      ensures Extends(base.doc.log, old(base.doc.log))
      ensures r.Pass? ==>
                && element in base.doc.parent && base.doc.parent[element] == toElement
                && LegsDone(base.doc.log, base.doc.parent, |old(base.doc.log)|, removed, shrink, at1, removedAt, at2,
                            wrapper, fromMatrix, middle, toMatrix, first, second)
      ensures r.Pass? && insertBefore != Some(element) &&
              (removed[0].None? || (toElement < lo && (fromParent.Some? ==> fromParent.value < lo) && old(base.Chained(wrapper, element)))) ==>
                RightBefore(base.doc.children[toElement], element, insertBefore)
    {
      removed, shrink, at1, removedAt, at2 := [], None, 0, 0, 0;
      var legs;
      legs, at1, removedAt, at2 := Legs(element, toElement, insertBefore, wrapper, fromParent, fromNextSibling, fromMatrix,
                                       middle, toMatrix, first, second);
      if legs.Err? {
        return Fail(legs.error), removed, shrink, at1, removedAt, at2;
      }
      shrink := legs.value.0;
      ghost var ev1 := Animated(wrapper, TransformKeyframes(fromMatrix, middle), SurfaceTiming(first));
      ghost var ev2 := Animated(wrapper, TransformKeyframes(middle, toMatrix), SurfaceTiming(second));
      var grow := legs.value.1;
      ghost var log2 := base.doc.log;
      r, removed := LandLegs(element, toElement, grow, insertBefore, wrapper, lo);
      if r.Pass? {
        ExtendsTransitive(old(base.doc.log), log2, base.doc.log);
        ExtendsLegs(base.doc.log, log2, |old(base.doc.log)|, at1, ev1, shrink, removedAt, at2, ev2);
        ExtendsLegsStarted(base.doc.log, log2, at1, first, at2, second);
      }
    }

    /**
     * The `.then` of the two-leg slides: Land with the growing space and the
     * wrapper to remove. A growing space right before `insertBefore` leaves
     * the element there.
     */
    method LandLegs(element: Node, toElement: Node, grow: Option<Node>, insertBefore: Option<Node>, wrapper: Node, ghost lo: nat)
      returns (r: Outcome, ghost removed: seq<Option<Node>>)
      requires Valid() && element < lo <= wrapper < base.doc.nextId && base.doc.Exists(toElement)
      requires grow.Some? ==> lo <= grow.value < base.doc.nextId
      requires insertBefore.Some? ==> base.doc.Exists(insertBefore.value)
      modifies base.doc
      ensures Valid() && removed == [grow, Some(wrapper)] && base.doc.nextId == old(base.doc.nextId)
      ensures r.Fail? ==> base.doc.log == old(base.doc.log)
      ensures r.Pass? ==>
                && element in base.doc.parent && base.doc.parent[element] == toElement
                && RemovedLast(base.doc.log, base.doc.parent, removed)
                && Extends(base.doc.log, old(base.doc.log))
      ensures r.Pass? && insertBefore != Some(element) && (insertBefore.Some? ==> insertBefore.value < lo) &&
              (grow.None? || RightBefore(old(base.doc.children)[toElement], grow.value, insertBefore)) ==>
                RightBefore(base.doc.children[toElement], element, insertBefore)
    {
      WithinTwo(grow, Some(wrapper), lo, base.doc.nextId);
      if grow.Some? && RightBefore(base.doc.children[toElement], grow.value, insertBefore) {
        assert [grow, Some(wrapper)][0] == grow;
        RightBeforePlaced(base.doc.children[toElement], grow.value, insertBefore, RemovedNodes([grow, Some(wrapper)]));
      }
      r, removed := Land(element, Some(toElement), grow, insertBefore, [grow, Some(wrapper)], lo);
    }

    /** The two legs, one after the other; on success, the shrinking space of the first and the growing space of the second. */
    method Legs(element: Node, toElement: Node, insertBefore: Option<Node>, wrapper: Node,
                fromParent: Option<Node>, fromNextSibling: Option<Node>, fromMatrix: Option<Matrix>,
                middle: Option<Matrix>, toMatrix: Option<Matrix>, first: AnimationSettings, second: AnimationSettings)
      returns (r: Result<(Option<Node>, Option<Node>)>, ghost at1: nat, ghost removedAt: nat, ghost at2: nat)
      requires Valid() && base.doc.Exists(element) && base.doc.Exists(toElement) && base.doc.Exists(wrapper)
      requires insertBefore.Some? ==> base.doc.Exists(insertBefore.value)
      requires fromParent.Some? ==> base.doc.Exists(fromParent.value)
      requires fromNextSibling.Some? ==> base.doc.Exists(fromNextSibling.value)
      requires ElementsExist(first, base.doc.nextId) && ElementsExist(second, base.doc.nextId)
      modifies base.doc
      ensures Valid() && base.doc.nextId >= old(base.doc.nextId)
      ensures Extends(base.doc.log, old(base.doc.log))
      ensures r.Ok? ==>
                && (r.value.0.Some? <==> SpaceNeeded(first, Shrink))
                && (r.value.1.Some? <==> SpaceNeeded(second, Grow))
                && (r.value.1.Some? ==> old(base.doc.nextId) <= r.value.1.value < base.doc.nextId)
                && LoggedLegs(base.doc.log, |old(base.doc.log)|,
                              at1, Animated(wrapper, TransformKeyframes(fromMatrix, middle), SurfaceTiming(first)),
                              r.value.0, removedAt,
                              at2, Animated(wrapper, TransformKeyframes(middle, toMatrix), SurfaceTiming(second)))
                && LegsStarted(base.doc.log, at1, first, at2, second)
      ensures r.Ok? && r.value.1.Some? && toElement < wrapper &&
              (fromParent.Some? ==> fromParent.value < wrapper) && old(base.Chained(wrapper, element)) ==>
                RightBefore(base.doc.children[toElement], r.value.1.value, insertBefore)
    {
      at1, removedAt, at2 := 0, 0, 0;
      var leg1;
      leg1, at1, removedAt := FirstLeg(element, wrapper, fromParent, fromNextSibling, fromMatrix, middle, first);
      if leg1.Err? {
        return Err(leg1.error), at1, removedAt, at2;
      }
      ghost var log1 := base.doc.log;
      var leg2;
      leg2, at2 := SecondLeg(element, toElement, insertBefore, wrapper, middle, toMatrix, second);
      ExtendsTransitive(old(base.doc.log), log1, base.doc.log);
      if leg2.Err? {
        return Err(leg2.error), at1, removedAt, at2;
      }
      LegsFollow(log1, base.doc.log, |old(base.doc.log)|, at1, Animated(wrapper, TransformKeyframes(fromMatrix, middle), SurfaceTiming(first)),
                 leg1.value, removedAt, at2, Animated(wrapper, TransformKeyframes(middle, toMatrix), SurfaceTiming(second)));
      ExtendsStarted(base.doc.log, log1, at1, ParallelList(first), SurfaceTiming(first));
      r := Ok((leg1.value, leg2.value));
    }

    /**
     * slideToScreenCenterAndAttach. Inactive: a plain attach. Active: the
     * settings argument must be one object or an array of two (else a
     * throw); the middle matrix centres a box of the element's size in the
     * viewport; then the steps of slideAndAttach's start and the two legs,
     * the first to the middle with a shrinking space at the origin, the
     * second from the middle with a growing space at the destination.
     */
    method SlideToScreenCenterAndAttach(element: Node, toElement: Node, arg: SettingsArg, insertBefore: Option<Node>,
                                        active: bool, b: Browser)
      returns (r: Outcome, ghost removed: seq<Option<Node>>, ghost shrink: Option<Node>,
               ghost at1: nat, ghost removedAt: nat, ghost at2: nat)
      requires Valid() && base.doc.Exists(element) && base.doc.Exists(toElement)
      requires insertBefore.Some? ==> base.doc.Exists(insertBefore.value)
      requires ArgElementsExist(arg, base.doc.nextId)
      modifies base.doc
      ensures Valid()
      ensures active && arg.Many? && |arg.list| != 2 ==>
                r == Fail(Thrown(TwoLegMessage)) && base.doc.children == old(base.doc.children) &&
                base.doc.parent == old(base.doc.parent) && base.doc.log == old(base.doc.log)
      ensures !InsertAllowed(old(base.doc.parent), old(base.doc.nextId), element, Some(toElement), insertBefore) ==>
                r.Fail? && base.doc.children == old(base.doc.children) && base.doc.parent == old(base.doc.parent) &&
                base.doc.log == old(base.doc.log)
      ensures !active ==>
                base.doc.log == old(base.doc.log) && base.doc.nextId == old(base.doc.nextId) &&
                (r.Pass? <==> InsertAllowed(old(base.doc.parent), old(base.doc.nextId), element, Some(toElement), insertBefore)) &&
                (r.Pass? ==> base.doc.parent == old(base.doc.parent)[element := toElement] &&
                             base.doc.children == Attached(old(base.doc.children), old(base.doc.parent), element, toElement, insertBefore))
      ensures r.Pass? ==> element in base.doc.parent && base.doc.parent[element] == toElement
      ensures active && r.Pass? ==>
                var legs := TwoLegSettings(animationSettings, arg, TwoLegMessage);
                var c0, p0, n0 := old(base.doc.children), old(base.doc.parent), old(base.doc.nextId);
                var center := Some(ScreenCenterMatrix(b.rect(c0, element), b.scroll, b.viewport));
                && legs.Ok?
                && LegsDone(base.doc.log, base.doc.parent, |old(base.doc.log)|, removed, shrink, at1, removedAt, at2,
                            n0, Some(FullMatrixOf(b, c0, p0, n0, element)), center,
                            DestinationMatrix(b, c0, p0, n0, element, toElement, insertBefore), legs.value.0, legs.value.1)
      ensures active && r.Pass? && insertBefore != Some(element) &&
              (removed[0].None? || !old(base.doc.HasClass(element, WrapperClass))) ==>
                RightBefore(base.doc.children[toElement], element, insertBefore)
    {
      removed, shrink, at1, removedAt, at2 := [], None, 0, 0, 0;
      if !active {
        r := base.AttachToElement(element, Some(toElement), insertBefore);
        return;
      }
      var legs := TwoLegSettings(animationSettings, arg, TwoLegMessage);
      if legs.Err? {
        return Fail(legs.error), removed, shrink, at1, removedAt, at2;
      }
      var first, second := legs.value.0, legs.value.1;
      LegsElementsExist(arg, base.doc.nextId);
      var elementBox := b.rect(base.doc.children, element);
      var center := ScreenCenterMatrix(elementBox, b.scroll, b.viewport);
      ghost var n0 := base.doc.nextId;
      var start := Depart(element, toElement, insertBefore, b);
      if start.Err? {
        return Fail(start.error), removed, shrink, at1, removedAt, at2;
      }
      var ra := start.value;
      r, removed, shrink, at1, removedAt, at2 :=
        TwoLegs(element, toElement, insertBefore, ra.wrapper.value, ra.fromParent, ra.fromNextSibling, ra.fromMatrix,
                Some(center), ra.toMatrix, first, second, n0);
    }

    /**
     * slideToElementAndAttach: slideToScreenCenterAndAttach with, as middle
     * matrix, the centre matrix of the WRAPPER (the call passes the wrapper
     * as the element to centre on and `overElement` as `ignoreScale`, so the
     * scale and the rotation are both dropped and `overElement` is otherwise
     * unused), measured once the element is wrapped.
     */
    method SlideToElementAndAttach(element: Node, overElement: Node, toElement: Node, arg: SettingsArg,
                                   insertBefore: Option<Node>, active: bool, b: Browser)
      returns (r: Outcome, ghost removed: seq<Option<Node>>, ghost shrink: Option<Node>,
               ghost at1: nat, ghost removedAt: nat, ghost at2: nat, ghost middle: Option<Matrix>)
      requires Valid() && base.doc.Exists(element) && base.doc.Exists(toElement)
      requires insertBefore.Some? ==> base.doc.Exists(insertBefore.value)
      requires ArgElementsExist(arg, base.doc.nextId)
      modifies base.doc
      ensures Valid()
      ensures active && arg.Many? && |arg.list| != 2 ==>
                r == Fail(Thrown(TwoLegMessage)) && base.doc.children == old(base.doc.children) &&
                base.doc.parent == old(base.doc.parent) && base.doc.log == old(base.doc.log)
      ensures !InsertAllowed(old(base.doc.parent), old(base.doc.nextId), element, Some(toElement), insertBefore) ==>
                r.Fail? && base.doc.children == old(base.doc.children) && base.doc.parent == old(base.doc.parent) &&
                base.doc.log == old(base.doc.log)
      ensures !active ==>
                base.doc.log == old(base.doc.log) && base.doc.nextId == old(base.doc.nextId) &&
                (r.Pass? <==> InsertAllowed(old(base.doc.parent), old(base.doc.nextId), element, Some(toElement), insertBefore)) &&
                (r.Pass? ==> base.doc.parent == old(base.doc.parent)[element := toElement] &&
                             base.doc.children == Attached(old(base.doc.children), old(base.doc.parent), element, toElement, insertBefore))
      ensures r.Pass? ==> element in base.doc.parent && base.doc.parent[element] == toElement
      ensures active && r.Pass? ==>
                var legs := TwoLegSettings(animationSettings, arg, TwoLegMessage);
                var c0, p0, n0 := old(base.doc.children), old(base.doc.parent), old(base.doc.nextId);
                && legs.Ok?
                && LegsDone(base.doc.log, base.doc.parent, |old(base.doc.log)|, removed, shrink, at1, removedAt, at2,
                            n0, Some(FullMatrixOf(b, c0, p0, n0, element)), middle,
                            DestinationMatrix(b, c0, p0, n0, element, toElement, insertBefore), legs.value.0, legs.value.1)
      ensures active && IsHypot(b.hypot) && middle.Some? ==> Unrotated(middle.value)
      ensures active && r.Pass? ==>
                middle == WrapperMiddle(b, old(base.doc.children), old(base.doc.parent), old(base.doc.nextId), element, toElement,
                                        insertBefore, base.animationSurface)
      ensures active && r.Pass? && insertBefore != Some(element) &&
              (removed[0].None? || !old(base.doc.HasClass(element, WrapperClass))) ==>
                RightBefore(base.doc.children[toElement], element, insertBefore)
    {
      removed, shrink, at1, removedAt, at2, middle := [], None, 0, 0, 0, None;
      if !active {
        r := base.AttachToElement(element, Some(toElement), insertBefore);
        return;
      }
      var legs := TwoLegSettings(animationSettings, arg, TwoLegMessage);
      if legs.Err? {
        return Fail(legs.error), removed, shrink, at1, removedAt, at2, middle;
      }
      LegsElementsExist(arg, base.doc.nextId);
      r, removed, shrink, at1, removedAt, at2, middle := SlideOverWrapper(element, toElement, insertBefore, legs.value.0,
                                                                          legs.value.1, b);
    }

    /** The active path of slideToElementAndAttach, with the two legs' merged settings. */
    method SlideOverWrapper(element: Node, toElement: Node, insertBefore: Option<Node>, first: AnimationSettings,
                            second: AnimationSettings, b: Browser)
      returns (r: Outcome, ghost removed: seq<Option<Node>>, ghost shrink: Option<Node>,
               ghost at1: nat, ghost removedAt: nat, ghost at2: nat, ghost middle: Option<Matrix>)
      requires Valid() && base.doc.Exists(element) && base.doc.Exists(toElement)
      requires insertBefore.Some? ==> base.doc.Exists(insertBefore.value)
      requires ElementsExist(first, base.doc.nextId) && ElementsExist(second, base.doc.nextId)
      modifies base.doc
      ensures Valid()
      ensures !InsertAllowed(old(base.doc.parent), old(base.doc.nextId), element, Some(toElement), insertBefore) ==>
                r.Fail? && base.doc.children == old(base.doc.children) && base.doc.parent == old(base.doc.parent) &&
                base.doc.log == old(base.doc.log)
      ensures r.Pass? ==> element in base.doc.parent && base.doc.parent[element] == toElement
      ensures r.Pass? ==>
                var c0, p0, n0 := old(base.doc.children), old(base.doc.parent), old(base.doc.nextId);
                LegsDone(base.doc.log, base.doc.parent, |old(base.doc.log)|, removed, shrink, at1, removedAt, at2,
                         n0, Some(FullMatrixOf(b, c0, p0, n0, element)), middle,
                         DestinationMatrix(b, c0, p0, n0, element, toElement, insertBefore), first, second)
      ensures IsHypot(b.hypot) && middle.Some? ==> Unrotated(middle.value)
      ensures r.Pass? ==>
                middle == WrapperMiddle(b, old(base.doc.children), old(base.doc.parent), old(base.doc.nextId), element, toElement,
                                        insertBefore, base.animationSurface)
      ensures r.Pass? && insertBefore != Some(element) &&
              (removed[0].None? || !old(base.doc.HasClass(element, WrapperClass))) ==>
                RightBefore(base.doc.children[toElement], element, insertBefore)
    {
      removed, shrink, at1, removedAt, at2, middle := [], None, 0, 0, 0, None;
      ghost var n0 := base.doc.nextId;
      var start := Depart(element, toElement, insertBefore, b);
      if start.Err? {
        return Fail(start.error), removed, shrink, at1, removedAt, at2, middle;
      }
      var ra := start.value;
      var overElementMatrix := WrapperCenter(ra.wrapper.value, b, old(base.doc.children), old(base.doc.parent), element,
                                             toElement, insertBefore);
      middle := overElementMatrix;
      r, removed, shrink, at1, removedAt, at2 :=
        TwoLegs(element, toElement, insertBefore, ra.wrapper.value, ra.fromParent, ra.fromNextSibling, ra.fromMatrix,
                overElementMatrix, ra.toMatrix, first, second, n0);
    }

    /**
     * The centre matrix of a wrapper with its scale and rotation dropped:
     * with an exact hypotenuse, a pure translation. Measured right after `x`
     * was attached to `to` (in the tree `c0`, `p0`) and wrapped, it is the
     * wrapper's middle matrix.
     */
    method WrapperCenter(wrapper: Node, b: Browser, ghost c0: map<Node, seq<Node>>, ghost p0: map<Node, Node>, ghost x: Node,
                         ghost to: Node, ghost ref: Option<Node>) returns (m: Option<Matrix>)
      ensures m == CenterMatrixOf(b, base.doc.children, base.doc.parent, base.doc.nextId, wrapper, true, true)
      ensures IsHypot(b.hypot) && m.Some? ==> Unrotated(m.value)
      ensures to in c0 && base.animationSurface in c0 && (x in p0 ==> p0[x] in c0) && base.doc.nextId == wrapper + 1 &&
              base.doc.parent == p0[x := to][x := wrapper][wrapper := base.animationSurface] &&
              base.doc.children == AttachedEnclosed(c0, p0, x, to, ref, wrapper, base.animationSurface) ==>
                m == WrapperMiddle(b, c0, p0, wrapper, x, to, ref, base.animationSurface)
    {
      m := base.GetFullMatrixFromElementCenter(wrapper, true, true, b);
      if to in c0 && base.animationSurface in c0 && (x in p0 ==> p0[x] in c0) && base.doc.nextId == wrapper + 1 &&
         base.doc.parent == p0[x := to][x := wrapper][wrapper := base.animationSurface] &&
         base.doc.children == AttachedEnclosed(c0, p0, x, to, ref, wrapper, base.animationSurface) {
        WrappedMeasured(b, Attached(c0, p0, x, to, ref), p0[x := to], x, wrapper, base.animationSurface,
                        base.doc.children, base.doc.parent, base.doc.nextId, true);
      }
    }

    /** Both legs' merged settings name only elements that exist. */
    lemma LegsElementsExist(arg: SettingsArg, nextId: nat)
      requires ElementsExist(animationSettings, nextId) && ArgElementsExist(arg, nextId)
      ensures var legs := TwoLegSettings(animationSettings, arg, TwoLegMessage);
              legs.Ok? ==> ElementsExist(legs.value.0, nextId) && ElementsExist(legs.value.1, nextId)
    {
      match arg
      case One(s) => OverrideElementsExist(animationSettings, s, nextId);
      case Many(list) =>
        if |list| == 2 {
          OverrideElementsExist(animationSettings, list[0], nextId);
          OverrideElementsExist(animationSettings, list[1], nextId);
        }
    }

    /**
     * The synchronous part of slideIn after the measurements: the element
     * wrapped on the surface; the start matrix (the wrapper's centre matrix
     * without scale when the call names an element to come from, else the
     * element's own matrix); a growing space where the element was; the
     * surface animation to the element's own matrix, 'ease-out' by default.
     */
    method Arrive(element: Node, centred: bool, ignoreRotation: bool, parentElement: Option<Node>, nextSibling: Option<Node>,
                  elementMatrix: Matrix, all: AnimationSettings, b: Browser)
      returns (r: Result<(Node, Option<Node>)>, ghost fromMatrix: Option<Matrix>, ghost at: nat)
      requires Valid() && base.doc.Exists(element) && ElementsExist(all, base.doc.nextId)
      requires parentElement.Some? ==> base.doc.Exists(parentElement.value)
      requires nextSibling.Some? ==> base.doc.Exists(nextSibling.value)
      modifies base.doc
      ensures Valid() && base.doc.nextId >= old(base.doc.nextId) && Extends(base.doc.log, old(base.doc.log))
      ensures r.Err? ==> r.error in {HierarchyRequestError, TypeError, NotFoundError, InvalidStateError}
      ensures r.Ok? ==>
                var s := WithDefaultEasing("ease-out", all);
                && r.value.0 == old(base.doc.nextId)
                && (r.value.1.Some? <==> SpaceNeeded(all, Grow))
                && Within([r.value.1, Some(r.value.0)], old(base.doc.nextId), base.doc.nextId)
                && (r.value.1.Some? ==> base.doc.Exists(r.value.1.value))
                && LoggedAt(base.doc.log, |old(base.doc.log)|, at,
                            Animated(r.value.0, TransformKeyframes(fromMatrix, Some(elementMatrix)), SurfaceTiming(s)),
                            ParallelList(s), SurfaceTiming(s))
      ensures r.Ok? && !centred ==> fromMatrix == Some(elementMatrix)
      ensures r.Ok? && centred ==>
                fromMatrix == WrappedCenterMatrix(b, old(base.doc.children), old(base.doc.parent), element, r.value.0,
                                                  base.animationSurface, ignoreRotation)
      ensures r.Ok? && centred && ignoreRotation && IsHypot(b.hypot) && fromMatrix.Some? ==> Unrotated(fromMatrix.value)
      ensures r.Ok? && r.value.1.Some? && parentElement.Some? && parentElement.value < old(base.doc.nextId) &&
              !old(base.doc.HasClass(element, WrapperClass)) ==>
                RightBefore(base.doc.children[parentElement.value], r.value.1.value, nextSibling)
    {
      fromMatrix, at := None, 0;
      var w := WrapFrom(element, centred, ignoreRotation, elementMatrix, b);
      if w.Err? {
        return Err(w.error), fromMatrix, at;
      }
      var (wrapper, from) := w.value;
      fromMatrix := from;
      var grow;
      grow, at := GrowAndAnimate(element, wrapper, parentElement, nextSibling, from, elementMatrix, all);
      if grow.Err? {
        return Err(grow.error), fromMatrix, at;
      }
      WithinTwo(grow.value, Some(wrapper), old(base.doc.nextId), base.doc.nextId);
      r := Ok((wrapper, grow.value));
    }

    /** The promises of slideIn: the growing space, then the surface animation. */
    method GrowAndAnimate(element: Node, wrapper: Node, parentElement: Option<Node>, nextSibling: Option<Node>,
                          fromMatrix: Option<Matrix>, elementMatrix: Matrix, all: AnimationSettings)
      returns (r: Result<Option<Node>>, ghost at: nat)
      requires Valid() && base.doc.Exists(wrapper) && ElementsExist(all, base.doc.nextId)
      requires parentElement.Some? ==> base.doc.Exists(parentElement.value)
      requires nextSibling.Some? ==> base.doc.Exists(nextSibling.value)
      modifies base.doc
      ensures Valid() && base.doc.nextId >= old(base.doc.nextId) && Extends(base.doc.log, old(base.doc.log))
      ensures r.Err? ==> r.error in {HierarchyRequestError, TypeError, NotFoundError, InvalidStateError}
      ensures r.Ok? ==>
                var s := WithDefaultEasing("ease-out", all);
                && (r.value.Some? <==> SpaceNeeded(all, Grow))
                && (r.value.Some? ==> old(base.doc.nextId) <= r.value.value < base.doc.nextId)
                && LoggedAt(base.doc.log, |old(base.doc.log)|, at,
                            Animated(wrapper, TransformKeyframes(fromMatrix, Some(elementMatrix)), SurfaceTiming(s)),
                            ParallelList(s), SurfaceTiming(s))
      ensures r.Ok? && r.value.Some? && parentElement.Some? && parentElement.value < wrapper && old(base.Chained(wrapper, element)) ==>
                RightBefore(base.doc.children[parentElement.value], r.value.value, nextSibling)
    {
      at := 0;
      var grow := ChainedSpace(element, parentElement, Grow, all, nextSibling, wrapper);
      if grow.Err? {
        return grow, at;
      }
      var s := WithDefaultEasing("ease-out", all);
      OverrideElementsExist(NoSettings.(easing := Some("ease-out")), all, base.doc.nextId);
      ghost var log1 := base.doc.log;
      ghost var c1, k1 := base.doc.children, base.doc.classes;
      at := |log1|;
      var animated := Surface(wrapper, fromMatrix, Some(elementMatrix), s, element, wrapper);
      if animated.Fail? {
        return Err(animated.error), at;
      }
      ExtendsTransitive(old(base.doc.log), log1, base.doc.log);
      r := grow;
      if grow.value.Some? && parentElement.Some? && parentElement.value < wrapper && old(base.Chained(wrapper, element)) {
        assert parentElement.value in c1 && parentElement.value in k1;
        ListKept(c1, k1, base.doc.children, wrapper, parentElement.value);
      }
    }

    /**
     * slideIn's wrap and start matrix: the wrapper's centre matrix without
     * scale (rotation dropped as asked) when `centred`, else the element's
     * own matrix.
     */
    method WrapFrom(element: Node, centred: bool, ignoreRotation: bool, elementMatrix: Matrix, b: Browser)
      returns (r: Result<(Node, Option<Matrix>)>)
      requires Valid() && base.doc.Exists(element)
      modifies base.doc
      ensures Valid() && base.doc.log == old(base.doc.log) && base.doc.nextId >= old(base.doc.nextId)
      ensures r.Err? ==> r.error == HierarchyRequestError
      ensures r.Ok? ==> r.value.0 == old(base.doc.nextId) < base.doc.nextId
      ensures r.Ok? && !centred ==> r.value.1 == Some(elementMatrix)
      ensures r.Ok? && centred ==>
                r.value.1 == WrappedCenterMatrix(b, old(base.doc.children), old(base.doc.parent), element, r.value.0,
                                                 base.animationSurface, ignoreRotation)
      ensures r.Ok? && centred && ignoreRotation && IsHypot(b.hypot) && r.value.1.Some? ==> Unrotated(r.value.1.value)
      ensures r.Ok? && !old(base.doc.HasClass(element, WrapperClass)) ==> base.Chained(r.value.0, element)
    {
      var w := base.WrapOnAnimationSurface(element);
      if w.Err? {
        return Err(w.error);
      }
      var from := Some(elementMatrix);
      if centred {
        from := base.GetFullMatrixFromElementCenter(w.value, true, ignoreRotation, b);
        WrappedMeasured(b, old(base.doc.children), old(base.doc.parent), element, w.value, base.animationSurface,
                        base.doc.children, base.doc.parent, base.doc.nextId, ignoreRotation);
      }
      r := Ok((w.value, from));
    }

    /**
     * slideIn: the element, already in its destination, slides in there.
     * Inactive: nothing happens. Active: its parent, next sibling and matrix
     * are read; it is wrapped; the start matrix is measured; then (in array
     * order) a growing space where it was and the surface animation to its
     * own matrix; once both finish it goes back to its parent, before the
     * space if there is one, else before its old next sibling, and the space
     * and the wrapper are removed. Only whether `fromElement` is given
     * matters: the call passes it where the centre matrix expects
     * `ignoreScale`.
     */
    method SlideIn(element: Node, fromElement: Option<Node>, settings: AnimationSettings, active: bool, b: Browser)
      returns (r: Outcome, ghost removed: seq<Option<Node>>, ghost fromMatrix: Option<Matrix>, ghost at: nat)
      requires Valid() && base.doc.Exists(element) && ElementsExist(settings, base.doc.nextId)
      modifies base.doc
      ensures Valid()
      ensures !active ==>
                r == Pass && base.doc.children == old(base.doc.children) && base.doc.parent == old(base.doc.parent) &&
                base.doc.log == old(base.doc.log) && base.doc.nextId == old(base.doc.nextId)
      ensures active && element !in old(base.doc.parent) ==> r.Fail?
      ensures active && r.Pass? ==>
                element in old(base.doc.parent) && element in base.doc.parent && base.doc.parent[element] == old(base.doc.parent)[element]
      ensures active && r.Pass? ==>
                var all := Override(animationSettings, settings);
                var s := WithDefaultEasing("ease-out", all);
                var elementMatrix := FullMatrixOf(b, old(base.doc.children), old(base.doc.parent), old(base.doc.nextId), element);
                && |removed| == 2 && removed[1] == Some(old(base.doc.nextId))
                && (removed[0].Some? <==> SpaceNeeded(all, Grow))
                && RemovedLast(base.doc.log, base.doc.parent, removed)
                && LoggedAt(base.doc.log, |old(base.doc.log)|, at,
                            Animated(old(base.doc.nextId), TransformKeyframes(fromMatrix, Some(elementMatrix)), SurfaceTiming(s)),
                            ParallelList(s), SurfaceTiming(s))
                && (fromElement.None? ==> fromMatrix == Some(elementMatrix))
                && (fromElement.Some? && settings.ignoreScale == Some(true) && IsHypot(b.hypot) && fromMatrix.Some? ==>
                      Unrotated(fromMatrix.value))
      ensures active && r.Pass? && fromElement.Some? ==>
                fromMatrix == WrappedCenterMatrix(b, old(base.doc.children), old(base.doc.parent), element, old(base.doc.nextId),
                                                  base.animationSurface, settings.ignoreScale.GetOr(false))
      ensures active && r.Pass? && (removed[0].None? || !old(base.doc.HasClass(element, WrapperClass))) ==>
                RightBefore(base.doc.children[base.doc.parent[element]], element, old(base.doc.NextSibling(element)))
    {
      removed, fromMatrix, at := [], None, 0;
      if !active {
        return Pass, removed, fromMatrix, at;
      }
      var all := Override(animationSettings, settings);
      OverrideElementsExist(animationSettings, settings, base.doc.nextId);
      assert forall c :: c in base.doc.parent ==> base.doc.parent[c] < base.doc.nextId;
      var parentElement := ParentOf(base.doc.parent, element);
      var nextSibling := base.doc.NextSibling(element);
      var elementMatrix := base.GetFullMatrix(element, b);
      r, removed, fromMatrix, at := ArriveAndLand(element, fromElement.Some?, settings.ignoreScale.GetOr(false), parentElement,
                                                  nextSibling, elementMatrix, all, b);
    }

    /** slideIn once measured: Arrive, then Land back in the parent before the space or the old next sibling. */
    method ArriveAndLand(element: Node, centred: bool, ignoreRotation: bool, parentElement: Option<Node>, nextSibling: Option<Node>,
                         elementMatrix: Matrix, all: AnimationSettings, b: Browser)
      returns (r: Outcome, ghost removed: seq<Option<Node>>, ghost fromMatrix: Option<Matrix>, ghost at: nat)
      requires Valid() && base.doc.Exists(element) && ElementsExist(all, base.doc.nextId)
      requires parentElement.Some? ==> base.doc.Exists(parentElement.value)
      requires nextSibling.Some? ==> base.doc.Exists(nextSibling.value) && nextSibling.value != element
      modifies base.doc
      ensures Valid()
      ensures r.Pass? ==>
                var s := WithDefaultEasing("ease-out", all);
                && parentElement.Some? && element in base.doc.parent && base.doc.parent[element] == parentElement.value
                && |removed| == 2 && removed[1] == Some(old(base.doc.nextId))
                && (removed[0].Some? <==> SpaceNeeded(all, Grow))
                && RemovedLast(base.doc.log, base.doc.parent, removed)
                && LoggedAt(base.doc.log, |old(base.doc.log)|, at,
                            Animated(old(base.doc.nextId), TransformKeyframes(fromMatrix, Some(elementMatrix)), SurfaceTiming(s)),
                            ParallelList(s), SurfaceTiming(s))
                && (!centred ==> fromMatrix == Some(elementMatrix))
                && (centred ==>
                      fromMatrix == WrappedCenterMatrix(b, old(base.doc.children), old(base.doc.parent), element, old(base.doc.nextId),
                                                        base.animationSurface, ignoreRotation))
                && (centred && ignoreRotation && IsHypot(b.hypot) && fromMatrix.Some? ==> Unrotated(fromMatrix.value))
      ensures r.Pass? && (removed[0].None? || !old(base.doc.HasClass(element, WrapperClass))) ==>
                RightBefore(base.doc.children[parentElement.value], element, nextSibling)
    {
      removed := [];
      ghost var n0 := base.doc.nextId;
      var arrived;
      arrived, fromMatrix, at := Arrive(element, centred, ignoreRotation, parentElement, nextSibling, elementMatrix, all, b);
      if arrived.Err? {
        return Fail(arrived.error), removed, fromMatrix, at;
      }
      var (wrapper, grow) := arrived.value;
      assert [grow, Some(wrapper)][0] == grow && [grow, Some(wrapper)][1] == Some(wrapper);
      ghost var log2 := base.doc.log;
      if parentElement.None? {
        r, removed := Land(element, parentElement, grow, nextSibling, [grow, Some(wrapper)], n0);
        return;
      }
      r, removed := LandLegs(element, parentElement.value, grow, nextSibling, wrapper, n0);
      if r.Pass? {
        ghost var s := WithDefaultEasing("ease-out", all);
        ExtendsLoggedAt(base.doc.log, log2, |old(base.doc.log)|, at,
                        Animated(wrapper, TransformKeyframes(fromMatrix, Some(elementMatrix)), SurfaceTiming(s)),
                        ParallelList(s), SurfaceTiming(s));
      }
    }

    /**
     * fadeIn: slideIn with the merged settings whose parallel animations
     * are the opacity fade from 0 to 1 followed by the call's own list.
     */
    method FadeIn(element: Node, fromElement: Option<Node>, settings: AnimationSettings, active: bool, b: Browser)
      returns (r: Outcome, ghost removed: seq<Option<Node>>, ghost fromMatrix: Option<Matrix>, ghost at: nat)
      requires Valid() && base.doc.Exists(element) && ElementsExist(settings, base.doc.nextId)
      modifies base.doc
      ensures Valid()
      ensures !active ==>
                r == Pass && base.doc.children == old(base.doc.children) && base.doc.parent == old(base.doc.parent) &&
                base.doc.log == old(base.doc.log) && base.doc.nextId == old(base.doc.nextId)
      ensures active && element !in old(base.doc.parent) ==> r.Fail?
      ensures active && r.Pass? ==>
                var timing := Timing(settings.duration.GetOr(animationSettings.duration.GetOr(500.0)),
                                     settings.easing.GetOr(animationSettings.easing.GetOr("ease-out")));
                && element in old(base.doc.parent) && element in base.doc.parent
                && base.doc.parent[element] == old(base.doc.parent)[element]
                && |removed| == 2 && removed[1] == Some(old(base.doc.nextId))
                && (forall k :: 0 <= k < |removed| && removed[k].Some? ==> removed[k].value !in base.doc.parent)
                && |old(base.doc.log)| <= at < |base.doc.log|
                && base.doc.log[at].Animated? && base.doc.log[at].target == old(base.doc.nextId)
                && base.doc.log[at].timing == timing
                && StartedAt(base.doc.log, at, [Some(CreateFadeAnimation(FadeType.FadeIn))] + ParallelList(settings), timing)
                && at + 1 < |base.doc.log| && base.doc.log[at + 1].Animated?
                && base.doc.log[at + 1].keyframes == OpacityKeyframes(0.0, 1.0)
      ensures active && r.Pass? ==>
                var elementMatrix := FullMatrixOf(b, old(base.doc.children), old(base.doc.parent), old(base.doc.nextId), element);
                && base.doc.log[at].keyframes == TransformKeyframes(fromMatrix, Some(elementMatrix))
                && (fromElement.None? ==> fromMatrix == Some(elementMatrix))
                && (fromElement.Some? ==>
                      fromMatrix == WrappedCenterMatrix(b, old(base.doc.children), old(base.doc.parent), element, old(base.doc.nextId),
                                                        base.animationSurface,
                                                        Override(animationSettings, settings).ignoreScale.GetOr(false)))
      ensures active && r.Pass? && (removed[0].None? || !old(base.doc.HasClass(element, WrapperClass))) ==>
                RightBefore(base.doc.children[base.doc.parent[element]], element, old(base.doc.NextSibling(element)))
    {
      removed, fromMatrix, at := [], None, 0;
      if !active {
        return Pass, removed, fromMatrix, at;
      }
      var all := Override(animationSettings, settings);
      var final := FadeSettings(all, settings, FadeType.FadeIn);
      PrependElementsExist(Some(CreateFadeAnimation(FadeType.FadeIn)), ParallelList(settings), base.doc.nextId);
      r, removed, fromMatrix, at := SlideIn(element, fromElement, final, active, b);
      if r.Pass? {
        FadeSurface(animationSettings, settings, FadeType.FadeIn, "ease-out");
        ghost var s := WithDefaultEasing("ease-out", Override(animationSettings, final));
        FadeInLogged(base.doc.log, |old(base.doc.log)|, at, old(base.doc.nextId), fromMatrix,
                     FullMatrixOf(b, old(base.doc.children), old(base.doc.parent), old(base.doc.nextId), element),
                     ParallelList(s), SurfaceTiming(s));
      }
    }

    /** fadeOutAndDestroy's wrap and end matrix: `toElement`'s matrix, measured once wrapped, else the start matrix. */
    method WrapTo(element: Node, toElement: Option<Node>, fromMatrix: Matrix, b: Browser) returns (r: Result<(Node, Matrix)>)
      requires Valid() && base.doc.Exists(element) && (toElement.Some? ==> base.doc.Exists(toElement.value))
      modifies base.doc
      ensures Valid() && base.doc.log == old(base.doc.log) && base.doc.nextId >= old(base.doc.nextId)
      ensures r.Err? ==> r.error == HierarchyRequestError
      ensures r.Ok? ==> r.value.0 == old(base.doc.nextId) < base.doc.nextId
      ensures r.Ok? && toElement.None? ==> r.value.1 == fromMatrix
      ensures r.Ok? && toElement.Some? ==>
                r.value.1 == FullMatrixOf(b, base.doc.children, base.doc.parent, base.doc.nextId, toElement.value)
    {
      var w := base.WrapOnAnimationSurface(element);
      if w.Err? {
        return Err(w.error);
      }
      var to := fromMatrix;
      if toElement.Some? {
        to := base.GetFullMatrix(toElement.value, b);
      }
      r := Ok((w.value, to));
    }

    /**
     * The synchronous part of fadeOutAndDestroy after the measurements: the
     * wrap, the end matrix, then (in array order) a shrinking space where
     * the element was, timed and gated by the CALL's settings alone, and
     * the surface animation with the settings `s`.
     */
    method Leave(element: Node, toElement: Option<Node>, fromElement: Option<Node>, nextSibling: Option<Node>,
                 fromMatrix: Matrix, call: AnimationSettings, s: AnimationSettings, b: Browser)
      returns (r: Result<(Node, Option<Node>)>, ghost toMatrix: Matrix, ghost at: nat)
      requires Valid() && base.doc.Exists(element) && ElementsExist(s, base.doc.nextId)
      requires toElement.Some? ==> base.doc.Exists(toElement.value)
      requires fromElement.Some? ==> base.doc.Exists(fromElement.value)
      requires nextSibling.Some? ==> base.doc.Exists(nextSibling.value)
      modifies base.doc
      ensures Valid() && base.doc.nextId >= old(base.doc.nextId) && Extends(base.doc.log, old(base.doc.log))
      ensures r.Err? ==> r.error in {HierarchyRequestError, TypeError, NotFoundError}
      ensures r.Ok? ==>
                && r.value.0 == old(base.doc.nextId)
                && (r.value.1.Some? <==> SpaceNeeded(call, Shrink))
                && Within([r.value.1, Some(r.value.0)], old(base.doc.nextId), base.doc.nextId)
                && (r.value.1.Some? ==> base.doc.Exists(r.value.1.value))
                && LoggedLeaving(base.doc.log, |old(base.doc.log)|, at,
                                 Animated(r.value.0, TransformKeyframes(Some(fromMatrix), Some(toMatrix)), SurfaceTiming(s)),
                                 ParallelList(s), SurfaceTiming(s), r.value.1, SurfaceTiming(call))
      ensures r.Ok? && toElement.None? ==> toMatrix == fromMatrix
    {
      toMatrix, at := fromMatrix, 0;
      var w := WrapTo(element, toElement, fromMatrix, b);
      if w.Err? {
        return Err(w.error), toMatrix, at;
      }
      var (wrapper, to) := w.value;
      toMatrix := to;
      var shrink;
      shrink, at := ShrinkAndAnimate(element, wrapper, fromElement, nextSibling, fromMatrix, to, call, s);
      if shrink.Err? {
        return Err(shrink.error), toMatrix, at;
      }
      r := Ok((wrapper, shrink.value));
    }

    /** The promises of fadeOutAndDestroy: the shrinking space, then the surface animation. */
    method ShrinkAndAnimate(element: Node, wrapper: Node, fromElement: Option<Node>, nextSibling: Option<Node>,
                            fromMatrix: Matrix, toMatrix: Matrix, call: AnimationSettings, s: AnimationSettings)
      returns (r: Result<Option<Node>>, ghost at: nat)
      requires Valid() && base.doc.Exists(wrapper) && ElementsExist(s, base.doc.nextId)
      requires fromElement.Some? ==> base.doc.Exists(fromElement.value)
      requires nextSibling.Some? ==> base.doc.Exists(nextSibling.value)
      modifies base.doc
      ensures Valid() && base.doc.nextId >= old(base.doc.nextId) && Extends(base.doc.log, old(base.doc.log))
      ensures r.Err? ==> r.error in {HierarchyRequestError, TypeError, NotFoundError}
      ensures r.Ok? ==>
                && (r.value.Some? <==> SpaceNeeded(call, Shrink))
                && (r.value.Some? ==> old(base.doc.nextId) <= r.value.value < base.doc.nextId)
                && LoggedLeaving(base.doc.log, |old(base.doc.log)|, at,
                                 Animated(wrapper, TransformKeyframes(Some(fromMatrix), Some(toMatrix)), SurfaceTiming(s)),
                                 ParallelList(s), SurfaceTiming(s), r.value, SurfaceTiming(call))
    {
      at := 0;
      var shrink := FillingSpace(element, fromElement, Shrink, call, nextSibling);
      if shrink.Err? {
        return shrink, at;
      }
      ghost var n1 := base.doc.nextId;
      assert shrink.value.Some? ==> shrink.value.value < n1;
      ghost var log1 := base.doc.log;
      at := |log1|;
      var animated := Surface(wrapper, Some(fromMatrix), Some(toMatrix), s, element, wrapper);
      if animated.Fail? {
        return Err(animated.error), at;
      }
      ghost var main := Animated(wrapper, TransformKeyframes(Some(fromMatrix), Some(toMatrix)), SurfaceTiming(s));
      ExtendsAt(base.doc.log, log1 + [main], at);
      if shrink.value.Some? {
        ExtendsAt(base.doc.log, log1 + [main], at - 1);
      }
      ExtendsAppend(log1, [main]);
      ExtendsTransitive(log1, log1 + [main], base.doc.log);
      ExtendsTransitive(old(base.doc.log), log1, base.doc.log);
      r := shrink;
    }

    /** The `.then` of fadeOutAndDestroy and slideFloatingElement: `element.remove()`, then every result's wrapper removed. */
    method Destroy(element: Node, results: seq<Option<Node>>)
      requires Valid() && base.doc.Exists(element)
      requires forall k :: 0 <= k < |results| && results[k].Some? ==> base.doc.Exists(results[k].value)
      modifies base.doc
      ensures Valid() && base.doc.nextId == old(base.doc.nextId)
      ensures base.doc.parent == old(base.doc.parent) - {element} - RemovedNodes(results)
      ensures base.doc.log == old(base.doc.log) + [Removed(element)] + Removals(results)
      ensures Extends(base.doc.log, old(base.doc.log))
      ensures 1 + |Removals(results)| <= |base.doc.log|
      ensures base.doc.log[|base.doc.log| - 1 - |Removals(results)|..] == [Removed(element)] + Removals(results)
      ensures element !in base.doc.parent
      ensures forall k :: 0 <= k < |results| && results[k].Some? ==> results[k].value !in base.doc.parent
    {
      base.doc.Remove(element);
      base.RemoveAll(results, 0, 0, None);
      assert base.doc.log == old(base.doc.log) + ([Removed(element)] + Removals(results));
      ExtendsAppend(old(base.doc.log), [Removed(element)] + Removals(results));
    }

    /**
     * fadeOutAndDestroy. Inactive: the element is removed. Active: its
     * parent, next sibling and matrix are read; it is wrapped; the end
     * matrix is `toElement`'s or the start one; then (in array order) a
     * shrinking space where it was, gated and timed by the call's settings
     * alone, and the surface animation, 'ease-in' by default, with the fade
     * from 1 to 0 followed by the call's own list; once both finish the
     * element is removed, then the space and the wrapper.
     */
    method FadeOutAndDestroy(element: Node, toElement: Option<Node>, settings: AnimationSettings, active: bool, b: Browser)
      returns (r: Outcome, ghost removed: seq<Option<Node>>, ghost toMatrix: Matrix, ghost at: nat)
      requires Valid() && base.doc.Exists(element) && ElementsExist(settings, base.doc.nextId)
      requires toElement.Some? ==> base.doc.Exists(toElement.value)
      modifies base.doc
      ensures Valid()
      ensures !active ==>
                r == Pass && base.doc.parent == old(base.doc.parent) - {element} &&
                base.doc.log == old(base.doc.log) + [Removed(element)] && base.doc.nextId == old(base.doc.nextId)
      ensures r.Pass? ==> element !in base.doc.parent
      ensures active && r.Pass? ==>
                var s := FadeOutSurfaceSettings(animationSettings, settings);
                var fromMatrix := FullMatrixOf(b, old(base.doc.children), old(base.doc.parent), old(base.doc.nextId), element);
                && FadedOut(base.doc.log, base.doc.parent, |old(base.doc.log)|, element, old(base.doc.nextId), removed, at,
                            Animated(old(base.doc.nextId), TransformKeyframes(Some(fromMatrix), Some(toMatrix)), SurfaceTiming(s)),
                            ParallelList(s), SurfaceTiming(s), SpaceNeeded(settings, Shrink), SurfaceTiming(settings))
                && (toElement.None? ==> toMatrix == fromMatrix)
    {
      if !active {
        removed, toMatrix, at := [], Identity, 0;
        base.doc.Remove(element);
        return Pass, removed, toMatrix, at;
      } else {
        var s := FadeOutSurfaceSettings(animationSettings, settings);
        FadeOutElementsExist(animationSettings, settings, base.doc.nextId);
        r, removed, toMatrix, at := FadeAway(element, toElement, settings, s, b);
      }
    }

    /** The active path of fadeOutAndDestroy. */
    method FadeAway(element: Node, toElement: Option<Node>, settings: AnimationSettings, s: AnimationSettings, b: Browser)
      returns (r: Outcome, ghost removed: seq<Option<Node>>, ghost toMatrix: Matrix, ghost at: nat)
      requires Valid() && base.doc.Exists(element) && ElementsExist(s, base.doc.nextId)
      requires toElement.Some? ==> base.doc.Exists(toElement.value)
      modifies base.doc
      ensures Valid()
      ensures r.Pass? ==>
                var fromMatrix := FullMatrixOf(b, old(base.doc.children), old(base.doc.parent), old(base.doc.nextId), element);
                && FadedOut(base.doc.log, base.doc.parent, |old(base.doc.log)|, element, old(base.doc.nextId), removed, at,
                            Animated(old(base.doc.nextId), TransformKeyframes(Some(fromMatrix), Some(toMatrix)), SurfaceTiming(s)),
                            ParallelList(s), SurfaceTiming(s), SpaceNeeded(settings, Shrink), SurfaceTiming(settings))
                && (toElement.None? ==> toMatrix == fromMatrix)
    {
      var fromElement := ParentOf(base.doc.parent, element);
      var nextSibling := base.doc.NextSibling(element);
      var fromMatrix := base.GetFullMatrix(element, b);
      r, removed, toMatrix, at := LeaveAndDestroy(element, toElement, fromElement, nextSibling, fromMatrix, settings, s, b);
    }

    /** fadeOutAndDestroy once measured: Leave, then Destroy with the space and the wrapper. */
    method LeaveAndDestroy(element: Node, toElement: Option<Node>, fromElement: Option<Node>, nextSibling: Option<Node>,
                           fromMatrix: Matrix, call: AnimationSettings, s: AnimationSettings, b: Browser)
      returns (r: Outcome, ghost removed: seq<Option<Node>>, ghost toMatrix: Matrix, ghost at: nat)
      requires Valid() && base.doc.Exists(element) && ElementsExist(s, base.doc.nextId)
      requires toElement.Some? ==> base.doc.Exists(toElement.value)
      requires fromElement.Some? ==> base.doc.Exists(fromElement.value)
      requires nextSibling.Some? ==> base.doc.Exists(nextSibling.value)
      modifies base.doc
      ensures Valid()
      ensures r.Pass? ==>
                && FadedOut(base.doc.log, base.doc.parent, |old(base.doc.log)|, element, old(base.doc.nextId), removed, at,
                            Animated(old(base.doc.nextId), TransformKeyframes(Some(fromMatrix), Some(toMatrix)), SurfaceTiming(s)),
                            ParallelList(s), SurfaceTiming(s), SpaceNeeded(call, Shrink), SurfaceTiming(call))
                && (toElement.None? ==> toMatrix == fromMatrix)
    {
      removed := [];
      var left;
      left, toMatrix, at := Leave(element, toElement, fromElement, nextSibling, fromMatrix, call, s, b);
      if left.Err? {
        return Fail(left.error), removed, toMatrix, at;
      }
      var (wrapper, shrink) := left.value;
      ghost var main := Animated(wrapper, TransformKeyframes(Some(fromMatrix), Some(toMatrix)), SurfaceTiming(s));
      assert [shrink, Some(wrapper)][1] == Some(wrapper);
      removed := DestroyLeft(element, wrapper, shrink, |old(base.doc.log)|, at, main, ParallelList(s), SurfaceTiming(s),
                             SpaceNeeded(call, Shrink), SurfaceTiming(call));
      r := Pass;
    }

    /** The `.then` of fadeOutAndDestroy, with what the animations logged kept in place. */
    method DestroyLeft(element: Node, wrapper: Node, shrink: Option<Node>, ghost lo: nat, ghost at: nat, ghost main: DomEvent,
                       ghost list: seq<Option<ParallelAnimation>>, ghost timing: Timing, ghost spaceNeeded: bool,
                       ghost spaceTiming: Timing)
      returns (ghost removed: seq<Option<Node>>)
      requires Valid() && base.doc.Exists(element) && base.doc.Exists(wrapper)
      requires shrink.Some? ==> base.doc.Exists(shrink.value)
      requires (shrink.Some? <==> spaceNeeded) && LoggedLeaving(base.doc.log, lo, at, main, list, timing, shrink, spaceTiming)
      modifies base.doc
      ensures Valid()
      ensures FadedOut(base.doc.log, base.doc.parent, lo, element, wrapper, removed, at, main, list, timing, spaceNeeded, spaceTiming)
    {
      var results := [shrink, Some(wrapper)];
      Destroy(element, results);
      removed := results;
      DestroyKeepsLog(old(base.doc.log), base.doc.log, lo, at, main, list, timing, shrink, spaceTiming);
    }

    /**
     * slideFloatingElement's matrices, both measured on the wrapper (the
     * call passes the wrapper as the element to centre on and the target
     * element as `ignoreScale`): the start matrix, measured again when
     * `fromElement` is given, is the end matrix.
     */
    method FloatMatrices(wrapper: Node, fromGiven: bool, ignoreRotation: bool, b: Browser)
      returns (fromMatrix: Option<Matrix>, toMatrix: Option<Matrix>)
      ensures toMatrix == CenterMatrixOf(b, base.doc.children, base.doc.parent, base.doc.nextId, wrapper, true, ignoreRotation)
      ensures fromMatrix == toMatrix
      ensures ignoreRotation && IsHypot(b.hypot) && toMatrix.Some? ==> Unrotated(toMatrix.value)
    {
      toMatrix := base.GetFullMatrixFromElementCenter(wrapper, true, ignoreRotation, b);
      fromMatrix := toMatrix;
      if fromGiven {
        fromMatrix := base.GetFullMatrixFromElementCenter(wrapper, true, ignoreRotation, b);
      }
    }

    /** slideFloatingElement's synchronous part: the wrap, the matrices, the surface animation. */
    method Float(element: Node, fromGiven: bool, ignoreRotation: bool, s: AnimationSettings, b: Browser)
      returns (r: Result<Node>, ghost matrix: Option<Matrix>, ghost at: nat)
      requires Valid() && base.doc.Exists(element) && ElementsExist(s, base.doc.nextId)
      modifies base.doc
      ensures Valid() && base.doc.nextId >= old(base.doc.nextId)
      ensures r.Err? ==> r.error in {HierarchyRequestError, TypeError, InvalidStateError}
      ensures r.Ok? ==>
                matrix == WrappedCenterMatrix(b, old(base.doc.children), old(base.doc.parent), element, r.value,
                                              base.animationSurface, ignoreRotation)
      ensures r.Ok? ==> matrix.Some?
      ensures WrappedCenterMatrix(b, old(base.doc.children), old(base.doc.parent), element, old(base.doc.nextId),
                                  base.animationSurface, ignoreRotation).None? ==>
                r.Err? && r.error in {HierarchyRequestError, InvalidStateError}
      ensures r.Err? && r.error == InvalidStateError ==>
                WrappedCenterMatrix(b, old(base.doc.children), old(base.doc.parent), element, old(base.doc.nextId),
                                    base.animationSurface, ignoreRotation).None?
      ensures r.Ok? ==>
                && r.value == old(base.doc.nextId) < base.doc.nextId
                && at == |old(base.doc.log)| && |base.doc.log| == at + 1 + |ParallelList(s)|
                && base.doc.log[at] == Animated(r.value, TransformKeyframes(matrix, matrix), SurfaceTiming(s))
                && StartedAt(base.doc.log, at, ParallelList(s), SurfaceTiming(s))
                && (ignoreRotation && IsHypot(b.hypot) && matrix.Some? ==> Unrotated(matrix.value))
    {
      matrix, at := None, |base.doc.log|;
      var w := base.WrapOnAnimationSurface(element);
      if w.Err? {
        return Err(w.error), matrix, at;
      }
      var fromMatrix, toMatrix := FloatMatrices(w.value, fromGiven, ignoreRotation, b);
      WrappedMeasured(b, old(base.doc.children), old(base.doc.parent), element, w.value, base.animationSurface,
                      base.doc.children, base.doc.parent, base.doc.nextId, ignoreRotation);
      matrix := toMatrix;
      var animated := Surface(w.value, fromMatrix, toMatrix, s, element, w.value);
      if animated.Fail? {
        return Err(animated.error), matrix, at;
      }
      ExtendsAt(base.doc.log, old(base.doc.log) + [Animated(w.value, TransformKeyframes(fromMatrix, toMatrix), SurfaceTiming(s))], at);
      r := Ok(w.value);
    }

    /**
     * slideFloatingElement. Inactive: nothing happens. Active: the element
     * is wrapped on the surface; the start and end matrices are both the
     * wrapper's centre matrix without scale (rotation dropped unless
     * `ignoreScale` is false), so the surface animation, 'ease-out' by
     * default, does not move it; once it finishes the element and then its
     * wrapper are removed.
     */
    method SlideFloatingElement(element: Node, fromElement: Option<Node>, toElement: Node, settings: AnimationSettings,
                                active: bool, b: Browser)
      returns (r: Outcome, ghost matrix: Option<Matrix>, ghost at: nat)
      requires Valid() && base.doc.Exists(element) && base.doc.Exists(toElement) && ElementsExist(settings, base.doc.nextId)
      modifies base.doc
      ensures Valid()
      ensures !active ==>
                r == Pass && base.doc.children == old(base.doc.children) && base.doc.parent == old(base.doc.parent) &&
                base.doc.log == old(base.doc.log) && base.doc.nextId == old(base.doc.nextId)
      ensures active && r.Pass? ==>
                var all := Override(animationSettings, settings);
                var s := WithDefaultEasing("ease-out", all);
                && element !in base.doc.parent && old(base.doc.nextId) !in base.doc.parent
                && |old(base.doc.log)| <= at && at + 3 + |ParallelList(s)| == |base.doc.log|
                && base.doc.log[at] == Animated(old(base.doc.nextId), TransformKeyframes(matrix, matrix), SurfaceTiming(s))
                && StartedAt(base.doc.log, at, ParallelList(s), SurfaceTiming(s))
                && base.doc.log[|base.doc.log| - 2..] == [Removed(element), Removed(old(base.doc.nextId))]
                && (all.ignoreScale.GetOr(true) && IsHypot(b.hypot) && matrix.Some? ==> Unrotated(matrix.value))
      ensures active && r.Pass? ==>
                matrix == WrappedCenterMatrix(b, old(base.doc.children), old(base.doc.parent), element, old(base.doc.nextId),
                                              base.animationSurface, Override(animationSettings, settings).ignoreScale.GetOr(true))
      ensures active && r.Pass? ==> matrix.Some?
      ensures active &&
              WrappedCenterMatrix(b, old(base.doc.children), old(base.doc.parent), element, old(base.doc.nextId),
                                  base.animationSurface, Override(animationSettings, settings).ignoreScale.GetOr(true)).None? ==>
                r.Fail? && r.error in {HierarchyRequestError, InvalidStateError}
    {
      matrix, at := None, 0;
      if !active {
        return Pass, matrix, at;
      }
      var all := Override(animationSettings, settings);
      var s := WithDefaultEasing("ease-out", all);
      OverrideElementsExist(animationSettings, settings, base.doc.nextId);
      OverrideElementsExist(NoSettings.(easing := Some("ease-out")), all, base.doc.nextId);
      r, matrix, at := FloatAndDestroy(element, fromElement.Some?, all.ignoreScale.GetOr(true), s, b);
    }

    /** The active path of slideFloatingElement: Float, then the element and its wrapper removed. */
    method FloatAndDestroy(element: Node, fromGiven: bool, ignoreRotation: bool, s: AnimationSettings, b: Browser)
      returns (r: Outcome, ghost matrix: Option<Matrix>, ghost at: nat)
      requires Valid() && base.doc.Exists(element) && ElementsExist(s, base.doc.nextId)
      modifies base.doc
      ensures Valid()
      ensures r.Pass? ==>
                && element !in base.doc.parent && old(base.doc.nextId) !in base.doc.parent
                && |old(base.doc.log)| <= at && at + 3 + |ParallelList(s)| == |base.doc.log|
                && base.doc.log[at] == Animated(old(base.doc.nextId), TransformKeyframes(matrix, matrix), SurfaceTiming(s))
                && StartedAt(base.doc.log, at, ParallelList(s), SurfaceTiming(s))
                && base.doc.log[|base.doc.log| - 2..] == [Removed(element), Removed(old(base.doc.nextId))]
                && (ignoreRotation && IsHypot(b.hypot) && matrix.Some? ==> Unrotated(matrix.value))
                && matrix == WrappedCenterMatrix(b, old(base.doc.children), old(base.doc.parent), element, old(base.doc.nextId),
                                                 base.animationSurface, ignoreRotation)
                && matrix.Some?
      ensures WrappedCenterMatrix(b, old(base.doc.children), old(base.doc.parent), element, old(base.doc.nextId),
                                  base.animationSurface, ignoreRotation).None? ==>
                r.Fail? && r.error in {HierarchyRequestError, InvalidStateError}
    {
      var floated;
      floated, matrix, at := Float(element, fromGiven, ignoreRotation, s, b);
      if floated.Err? {
        return Fail(floated.error), matrix, at;
      }
      ghost var log2 := base.doc.log;
      Destroy(element, [Some(floated.value)]);
      r := Pass;
      ExtendsAt(base.doc.log, log2, at);
      ExtendsStarted(base.doc.log, log2, at, ParallelList(s), SurfaceTiming(s));
    }

    /** addFloatingElement: slideFloatingElement from nowhere with a null bump under the call's settings. */
    method AddFloatingElement(element: Node, toElement: Node, settings: AnimationSettings, active: bool, b: Browser)
      returns (r: Outcome, ghost matrix: Option<Matrix>, ghost at: nat)
      requires Valid() && base.doc.Exists(element) && base.doc.Exists(toElement) && ElementsExist(settings, base.doc.nextId)
      modifies base.doc
      ensures Valid()
      ensures !active ==>
                r == Pass && base.doc.children == old(base.doc.children) && base.doc.parent == old(base.doc.parent) &&
                base.doc.log == old(base.doc.log) && base.doc.nextId == old(base.doc.nextId)
      ensures active && r.Pass? ==>
                var s := WithDefaultEasing("ease-out", Override(animationSettings, settings));
                && element !in base.doc.parent && old(base.doc.nextId) !in base.doc.parent
                && |old(base.doc.log)| <= at && at + 3 + |ParallelList(s)| == |base.doc.log|
                && base.doc.log[at] == Animated(old(base.doc.nextId), TransformKeyframes(matrix, matrix), SurfaceTiming(s))
                && StartedAt(base.doc.log, at, ParallelList(s), SurfaceTiming(s))
                && base.doc.log[|base.doc.log| - 2..] == [Removed(element), Removed(old(base.doc.nextId))]
      ensures active && r.Pass? ==>
                matrix == WrappedCenterMatrix(b, old(base.doc.children), old(base.doc.parent), element, old(base.doc.nextId),
                                              base.animationSurface, Override(animationSettings, settings).ignoreScale.GetOr(true))
      ensures active && r.Pass? ==> matrix.Some?
      ensures active &&
              WrappedCenterMatrix(b, old(base.doc.children), old(base.doc.parent), element, old(base.doc.nextId),
                                  base.animationSurface, Override(animationSettings, settings).ignoreScale.GetOr(true)).None? ==>
                r.Fail? && r.error in {HierarchyRequestError, InvalidStateError}
    {
      var call := Override(NoSettings.(bump := Null), settings);
      OverrideElementsExist(NoSettings.(bump := Null), settings, base.doc.nextId);
      r, matrix, at := SlideFloatingElement(element, None, toElement, call, active, b);
      NullBumpUnused(animationSettings, settings);
    }

    /**
     * playInterval: animation `i` starts `i` intervals after the first, the
     * interval being a quarter of the manager's duration unless given; the
     * promise settles exactly when every animation resolves.
     */
    method PlayInterval<F, V>(animations: seq<F>, interval: Option<real>, run: (F, nat) -> Result<V>)
      returns (starts: seq<(nat, real)>, settles: bool)
      ensures |starts| == |animations|
      ensures interval.Some? ==> forall i :: 0 <= i < |starts| ==> starts[i].0 == i && starts[i].1 == i as real * interval.value
      ensures interval.None? && animationSettings.duration.Some? ==>
                forall i :: 0 <= i < |starts| ==> starts[i].0 == i && starts[i].1 == i as real * (animationSettings.duration.value / 4.0)
      ensures settles <==> Sequencing.Parallel(animations, run).Ok?
    {
      var every := if interval.Some? then interval.value else animationSettings.duration.GetOr(500.0) / 4.0;
      starts, settles := Sequencing.PlayInterval(animations, every, run);
    }
  }

  /**
   * `new AnimationManager(game, settings)`: the base manager, and with it
   * the animation surface, is created by the field initialiser before the
   * constructor body throws for a missing game; the manager keeps
   * `{duration: 500, ...settings}`.
   */
  method NewAnimationManager(doc: Document, game: bool, settings: AnimationSettings) returns (r: Result<AnimationManager>)
    requires doc.Valid() && ElementsExist(settings, doc.nextId)
    modifies doc
    ensures r.Err? <==> !game
    ensures r.Err? ==> r.error == Thrown(GameMessage)
    ensures doc.nextId == old(doc.nextId) + 1 && doc.parent == old(doc.parent)[old(doc.nextId) := Body]
    ensures doc.log == old(doc.log)
    ensures r.Ok? ==>
              && fresh(r.value) && r.value.Valid() && r.value.base.doc == doc
              && r.value.base.animationSurface == old(doc.nextId)
              && r.value.animationSettings == ManagerSettings(settings)
  {
    var base := new BaseAnimationManager(doc);
    if !game {
      return Err(Thrown(GameMessage));
    }
    var manager := new AnimationManager(base, settings);
    r := Ok(manager);
  }
}
