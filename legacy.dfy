/**
 * The legacy `AnimationManager` of the compiled bundle. It keeps the game,
 * its settings and a zoom manager; it attaches an element to a new parent
 * and hands an animation function the settings it merges: its own
 * defaults (the manager's duration or 500 ms, the zoom as scale), then the
 * caller's settings, then the game and the element's origin, which always
 * win. Animation functions are opaque: a `Player` gives the outcome of the
 * promise each one returns, or `None` when it returns no promise at all.
 */
module Legacy {
  import opened JsValues
  import opened Geometry
  import opened Dom
  import BaseManager
  import Sequencing

  /** The BGA game object, by identity. */
  type GameId = nat

  /** A zoom manager: only its current `zoom` is read. */
  datatype ZoomManager = ZoomManager(zoom: Option<real>)

  /** `AnimationManagerSettings` of the legacy manager: the keys it reads. */
  datatype LegacyManagerSettings = LegacyManagerSettings(duration: Option<real>, zoomManager: Option<ZoomManager>)

  /**
   * The settings object an animation function receives; `None` is an
   * absent key. `afterAttach` names the caller's callback by identity.
   */
  datatype LegacySettings = LegacySettings(
    duration: Option<real>,
    scale: Option<real>,
    game: Option<GameId>,
    fromRect: Option<Rect>,
    fromElement: Option<Node>,
    afterAttach: Option<nat>)

  /** `{}`. */
  const NoSettings := LegacySettings(None, None, None, None, None, None)

  /** The animation functions the manager is handed or uses itself. */
  datatype AnimationFn = SlideAnimationFn | OtherFn(id: nat)

  /** The legs of `attachWithShowToScreenAnimation`. */
  datatype Leg = ShowScreenCenter | Pause | SlideAttach

  /** What the manager calls, in order. */
  datatype Call =
    | AfterAttach(callback: nat, element: Node, toElement: Node)
    | Played(fn: AnimationFn, element: Node, settings: LegacySettings)

  /** The outcome of the promise an animation function returns; `None` when it returns `null`/`undefined`. */
  type Player = (AnimationFn, Node, LegacySettings) -> Option<Result<bool>>

  /** `fn(...) ?? Promise.resolve(false)`. */
  function Settle(played: Option<Result<bool>>): (r: Result<bool>)
    ensures played.None? ==> r == Ok(false)
    ensures played.Some? ==> r == played.value
  {
    played.GetOr(Ok(false))
  }

  /** One key of `{...base, ...over}`: the later object's key wins when present. */
  function SpreadKey<T>(base: Option<T>, over: Option<T>): Option<T> {
    if over.Some? then over else base
  }

  /** `{...base, ...over}`. */
  function Spread(base: LegacySettings, over: LegacySettings): LegacySettings {
    LegacySettings(
      SpreadKey(base.duration, over.duration),
      SpreadKey(base.scale, over.scale),
      SpreadKey(base.game, over.game),
      SpreadKey(base.fromRect, over.fromRect),
      SpreadKey(base.fromElement, over.fromElement),
      SpreadKey(base.afterAttach, over.afterAttach))
  }

  /** The object literal the manager starts from: `{duration: settings?.duration ?? 500, scale: zoomManager?.zoom ?? undefined}`. */
  function Defaults(settings: Option<LegacyManagerSettings>, zoomManager: Option<ZoomManager>): LegacySettings {
    var duration := if settings.Some? && settings.value.duration.Some? then settings.value.duration.value else 500.0;
    var scale := if zoomManager.Some? then zoomManager.value.zoom else None;
    NoSettings.(duration := Some(duration), scale := scale)
  }

  /** The third leg plays `slide`, whatever settings it is given; the others are played by `legs`. */
  function ShowToScreenLegs(legs: (Leg, Option<LegacySettings>) -> Result<bool>, slide: Result<bool>)
    : (Leg, Option<LegacySettings>) -> Result<bool>
  {
    (l: Leg, s: Option<LegacySettings>) => if l == SlideAttach then slide else legs(l, s)
  }

  /** `toElement.appendChild(element)`: the element becomes the last child, unless it is an inclusive ancestor of `toElement`. */
  method AppendChild(doc: Document, element: Node, toElement: Node) returns (o: Outcome)
    requires doc.Valid() && doc.Exists(element) && doc.Exists(toElement)
    modifies doc
    ensures doc.Valid()
    ensures doc.classes == old(doc.classes) && doc.nextId == old(doc.nextId) && doc.log == old(doc.log)
    ensures o.Fail? <==> element in InclusiveAncestors(old(doc.parent), toElement, old(doc.nextId))
    ensures o.Fail? ==> o.error == HierarchyRequestError && doc.children == old(doc.children) && doc.parent == old(doc.parent)
    ensures o.Pass? ==>
              && doc.parent == old(doc.parent)[element := toElement]
              && |doc.children[toElement]| > 0 && doc.children[toElement][|doc.children[toElement]| - 1] == element
  {
    ghost var children0, parent0 := doc.children, doc.parent;
    o := doc.InsertNode(element, Some(toElement), None);
    if o.Pass? {
      MovedPlaces(children0, parent0, element, toElement, None);
    }
  }

  class LegacyAnimationManager {
    const doc: Document
    const game: GameId
    const settings: Option<LegacyManagerSettings>
    var zoomManager: Option<ZoomManager>

    /** The zoom manager is seeded from `settings.zoomManager`. */
    constructor(doc: Document, game: GameId, settings: Option<LegacyManagerSettings>)
      ensures this.doc == doc && this.game == game && this.settings == settings
      ensures zoomManager == (if settings.Some? then settings.value.zoomManager else None)
    {
      this.doc := doc;
      this.game := game;
      this.settings := settings;
      this.zoomManager := if settings.Some? then settings.value.zoomManager else None;
    }

    /**
     * `{duration: ..., scale: ..., ...(settings ?? {})}`: each key the caller
     * gives wins over the manager's default for it.
     */
    function Merged(call: Option<LegacySettings>): (m: LegacySettings)
      reads this
      ensures call.Some? && call.value.duration.Some? ==> m.duration == call.value.duration
      ensures (call.None? || call.value.duration.None?) ==>
                m.duration == Some(if settings.Some? && settings.value.duration.Some? then settings.value.duration.value else 500.0)
      ensures call.Some? && call.value.scale.Some? ==> m.scale == call.value.scale
      ensures (call.None? || call.value.scale.None?) ==>
                m.scale == (if zoomManager.Some? then zoomManager.value.zoom else None)
      ensures call.None? ==> m.game.None? && m.fromRect.None? && m.fromElement.None? && m.afterAttach.None?
      ensures call.Some? ==> m.game == call.value.game && m.fromRect == call.value.fromRect &&
                             m.fromElement == call.value.fromElement && m.afterAttach == call.value.afterAttach
    {
      Spread(Defaults(settings, zoomManager), call.GetOr(NoSettings))
    }

    /** The settings `attachWithAnimation` passes: `game` and the measured `fromRect` override the caller's. */
    function AttachSettings(call: Option<LegacySettings>, fromRect: Rect): (s: LegacySettings)
      reads this
      ensures s.game == Some(game) && s.fromRect == Some(fromRect)
      ensures s.duration == Merged(call).duration && s.scale == Merged(call).scale
      ensures s.fromElement == Merged(call).fromElement && s.afterAttach == Merged(call).afterAttach
    {
      Spread(Merged(call), NoSettings.(game := Some(game), fromRect := Some(fromRect)))
    }

    /** The settings `slideFromElement` passes: `game` and `fromElement` override the caller's; a caller's `fromRect` stays. */
    function SlideFromSettings(fromElement: Node, call: Option<LegacySettings>): (s: LegacySettings)
      reads this
      ensures s.game == Some(game) && s.fromElement == Some(fromElement)
      ensures s.duration == Merged(call).duration && s.scale == Merged(call).scale
      ensures s.fromRect == (if call.Some? then call.value.fromRect else None)
    {
      Spread(Merged(call), NoSettings.(game := Some(game), fromElement := Some(fromElement)))
    }

    /** The callback calls `settings?.afterAttach?.(element, toElement)` makes. */
    function AfterAttachCalls(call: Option<LegacySettings>, element: Node, toElement: Node): (calls: seq<Call>)
      ensures |calls| <= 1
      ensures |calls| == 1 <==> call.Some? && call.value.afterAttach.Some?
      ensures |calls| == 1 ==> calls[0] == AfterAttach(call.value.afterAttach.value, element, toElement)
    {
      if call.Some? && call.value.afterAttach.Some? then [AfterAttach(call.value.afterAttach.value, element, toElement)] else []
    }

    /**
     * `attachWithAnimation`: measure the element where it is, append it as
     * the last child of `toElement` (a DOM error is thrown before anything
     * else happens), call `afterAttach`, then play `fn` from the measured
     * origin.
     */
    method AttachWithAnimation(element: Node, toElement: Node, fn: AnimationFn, call: Option<LegacySettings>,
                               play: Player, b: BaseManager.Browser)
      returns (r: Result<bool>, calls: seq<Call>, fromRect: Rect)
      requires doc.Valid() && doc.Exists(element) && doc.Exists(toElement)
      modifies doc
      ensures doc.Valid()
      ensures doc.classes == old(doc.classes) && doc.nextId == old(doc.nextId) && doc.log == old(doc.log)
      ensures fromRect == b.rect(old(doc.children), element)
      ensures element in InclusiveAncestors(old(doc.parent), toElement, old(doc.nextId)) ==>
                r == Err(HierarchyRequestError) && calls == [] &&
                doc.children == old(doc.children) && doc.parent == old(doc.parent)
      ensures element !in InclusiveAncestors(old(doc.parent), toElement, old(doc.nextId)) ==>
                && doc.parent == old(doc.parent)[element := toElement]
                && |doc.children[toElement]| > 0 && doc.children[toElement][|doc.children[toElement]| - 1] == element
                && calls == AfterAttachCalls(call, element, toElement) + [Played(fn, element, AttachSettings(call, fromRect))]
                && r == Settle(play(fn, element, AttachSettings(call, fromRect)))
    {
      fromRect := b.rect(doc.children, element);
      var o := AppendChild(doc, element, toElement);
      if o.Fail? {
        return Err(o.error), [], fromRect;
      }
      var passed := AttachSettings(call, fromRect);
      calls := AfterAttachCalls(call, element, toElement) + [Played(fn, element, passed)];
      r := Settle(play(fn, element, passed));
    }

    /** `attachWithSlideAnimation`: `attachWithAnimation` with `slideAnimation`. */
    method AttachWithSlideAnimation(element: Node, toElement: Node, call: Option<LegacySettings>,
                                    play: Player, b: BaseManager.Browser)
      returns (r: Result<bool>, calls: seq<Call>, fromRect: Rect)
      requires doc.Valid() && doc.Exists(element) && doc.Exists(toElement)
      modifies doc
      ensures doc.Valid()
      ensures doc.classes == old(doc.classes) && doc.nextId == old(doc.nextId) && doc.log == old(doc.log)
      ensures fromRect == b.rect(old(doc.children), element)
      ensures element in InclusiveAncestors(old(doc.parent), toElement, old(doc.nextId)) ==>
                r == Err(HierarchyRequestError) && calls == [] && doc.parent == old(doc.parent)
      ensures element !in InclusiveAncestors(old(doc.parent), toElement, old(doc.nextId)) ==>
                && doc.parent == old(doc.parent)[element := toElement]
                && calls == AfterAttachCalls(call, element, toElement) + [Played(SlideAnimationFn, element, AttachSettings(call, fromRect))]
                && r == Settle(play(SlideAnimationFn, element, AttachSettings(call, fromRect)))
    {
      r, calls, fromRect := AttachWithAnimation(element, toElement, SlideAnimationFn, call, play, b);
    }

    /**
     * `attachWithShowToScreenAnimation`: attach the element (no caller
     * settings, so no `afterAttach`), then play, one after the other, the
     * screen-centre animation, the pause and a slide-attach to `toElement`,
     * the legs' settings coming from `arg`. The animation handed to
     * `attachWithAnimation` ignores the settings merged for it, and the
     * third leg ignores the settings it is given: it slides with the
     * manager's defaults from where the element is when it starts. That
     * position, `legRect`, is measured by the browser after the first two
     * legs have played, so it is a parameter of its own.
     */
    method AttachWithShowToScreenAnimation(element: Node, toElement: Node, arg: Sequencing.LegSettings<LegacySettings>,
                                           legs: (Leg, Option<LegacySettings>) -> Result<bool>, play: Player,
                                           legRect: Rect)
      returns (r: Result<bool>, run: Sequencing.Run<Leg, LegacySettings, bool>)
      requires doc.Valid() && doc.Exists(element) && doc.Exists(toElement)
      modifies doc
      ensures doc.Valid()
      ensures doc.classes == old(doc.classes) && doc.nextId == old(doc.nextId) && doc.log == old(doc.log)
      ensures element in InclusiveAncestors(old(doc.parent), toElement, old(doc.nextId)) ==>
                r == Err(HierarchyRequestError) && run.calls == [] && doc.parent == old(doc.parent)
      ensures element !in InclusiveAncestors(old(doc.parent), toElement, old(doc.nextId)) ==>
                && doc.parent == old(doc.parent)[element := toElement]
                && 1 <= |run.calls| <= 3
                && (forall i :: 0 <= i < |run.calls| ==> run.calls[i] == ([ShowScreenCenter, Pause, SlideAttach][i], Sequencing.LegSetting(arg, i)))
                && (|run.calls| >= 2 <==> legs(ShowScreenCenter, Sequencing.LegSetting(arg, 0)).Ok?)
                && (|run.calls| == 3 <==> legs(ShowScreenCenter, Sequencing.LegSetting(arg, 0)).Ok? &&
                                          legs(Pause, Sequencing.LegSetting(arg, 1)).Ok?)
                && (|run.calls| < 3 ==> r.Err?)
                && (|run.calls| == 3 ==> r == Settle(play(SlideAnimationFn, element, AttachSettings(None, legRect))))
    {
      var o := AppendChild(doc, element, toElement);
      if o.Fail? {
        return Err(o.error), Sequencing.Run([], Err(o.error));
      }
      var slide := Settle(play(SlideAnimationFn, element, AttachSettings(None, legRect)));
      var animations := [ShowScreenCenter, Pause, SlideAttach];
      var leg := ShowToScreenLegs(legs, slide);
      run := Sequencing.Cumulated(animations, arg, leg);
      ShowToScreenRun(arg, legs, slide);
      r := run.result;
    }

    /** The three legs of `attachWithShowToScreenAnimation` stop at the first rejection; the third one plays `slide`. */
    lemma ShowToScreenRun(arg: Sequencing.LegSettings<LegacySettings>, legs: (Leg, Option<LegacySettings>) -> Result<bool>,
                          slide: Result<bool>)
      ensures var run := Sequencing.Cumulated([ShowScreenCenter, Pause, SlideAttach], arg, ShowToScreenLegs(legs, slide));
              && 1 <= |run.calls| <= 3
              && (forall i :: 0 <= i < |run.calls| ==> run.calls[i] == ([ShowScreenCenter, Pause, SlideAttach][i], Sequencing.LegSetting(arg, i)))
              && (|run.calls| >= 2 <==> legs(ShowScreenCenter, Sequencing.LegSetting(arg, 0)).Ok?)
              && (|run.calls| == 3 <==> legs(ShowScreenCenter, Sequencing.LegSetting(arg, 0)).Ok? &&
                                        legs(Pause, Sequencing.LegSetting(arg, 1)).Ok?)
              && (|run.calls| < 3 ==> run.result.Err?)
              && (|run.calls| == 3 ==> run.result == slide)
    {
      Sequencing.CumulatedTrace([ShowScreenCenter, Pause, SlideAttach], arg, ShowToScreenLegs(legs, slide));
    }

    /** `slideFromElement`: play `slideAnimation` in place, from `fromElement`. */
    function SlideFromElement(element: Node, fromElement: Node, call: Option<LegacySettings>, play: Player): (r: Result<bool>)
      reads this
      ensures play(SlideAnimationFn, element, SlideFromSettings(fromElement, call)).None? ==> r == Ok(false)
      ensures play(SlideAnimationFn, element, SlideFromSettings(fromElement, call)).Some? ==>
                r == play(SlideAnimationFn, element, SlideFromSettings(fromElement, call)).value
    {
      Settle(play(SlideAnimationFn, element, SlideFromSettings(fromElement, call)))
    }

    /** `setZoomManager`: later defaults take their scale from the new zoom manager. */
    method SetZoomManager(zoomManager: Option<ZoomManager>)
      modifies this
      ensures this.zoomManager == zoomManager
      ensures Merged(None).scale == (if zoomManager.Some? then zoomManager.value.zoom else None)
    {
      this.zoomManager := zoomManager;
    }
  }
}
