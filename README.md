# bga-animations in Dafny

bga-animations animates the elements of a Board Game Arena game page. The
current manager (`AnimationManager` over `BaseAnimationManager`) handles a
move of an element like this:

- it measures the element as a DOMMatrix: the element's bounding-box centre
  plus the rotation and zoom of every ancestor;
- it wraps the element in a wrapper on an animation surface appended to the
  body;
- it animates the wrapper's transform from one matrix to another, optionally
  with bump, fade or custom parallel animations and with growing and
  shrinking "filling spaces" where the element leaves and arrives;
- it puts the element back into its destination parent and removes the
  wrappers and spaces.

Beside that manager, the repository ships:

- three CSS-transition animations (`slideAnimation`,
  `showScreenCenterAnimation`, `slideToAnimation`). Each writes an element's
  `zIndex`, `transition` and `transform`, waits for a transition event or a
  timeout, and restores what it saved;
- `cumulatedAnimations`, which chains animations one after another;
- the legacy `AnimationManager` of the compiled bundle, which appends an
  element and hands merged settings to an animation function.

The model has one module per concern:

- `JsValues`: Option, JavaScript's undefined/null/defined distinction, thrown errors, results.
- `Geometry`: DOMMatrix algebra over `real` (layout of the W3C Geometry Interfaces Module Level 1, `multiply` is A·B) and the matrix helpers of the base manager.
- `Dom`: a `Document` class holding a forest of nodes:
  - child lists and parent map;
  - class lists;
  - an event log of started animations and removals.

  It has DOM-Standard insert/append (pre-insert validity, moving a node that already has a parent) and `remove`.
- `Settings`: animation settings, their shallow spread, the manager defaults, the bump and fade factories and the filling-space gate.
- `BaseManager`: the `BaseAnimationManager` class (surface, wrappers, layers, filling spaces, surface animation, running-animation records).
- `Manager`: the `AnimationManager` class and its orchestrators, each of which ends in the reattach-and-cleanup step.
- `Sequencing`: `cumulatedAnimations`, `playSequentially`, `playParallel` and `playInterval` as traces of the invocations they make.
- `AnimationUtils`: an element's inline style as a class, and `getDeltaCoordinates`.
- `Transitions`: the three transition animations as a state machine over the style, the listeners, the timer and the promise.
- `Legacy`: the bundle's legacy manager.

Browser measurements are the fields of a `Browser` value passed in. These are bounding rectangles, computed styles, scroll, viewport and `Math.hypot`.

Native animations are atomic: starting one appends an `Animated` event to the document's log and yields its outcome.

Promises are `Result` values: `Ok` for a resolution and `Err` for a rejection or a thrown error.

Some source quirks are modelled as the code behaves. The contracts and lemmas say what each one does:

- `src/animation-manager.ts` calls `getFullMatrixFromElementCenter(wrapper, other, …)` against the three-parameter declaration at `src/base-animation-manager.ts:123`. The wrapper is measured. The other element only counts as a truthy `ignoreScale`.
- A bump of exactly 1 yields a null parallel-animation entry that the surface animation dereferences, which rejects with a TypeError. `bump ?? 1.2` turns an explicit null into 1.2.
- The transition animations remove the `cleanOnTransitionEnd` registrations but registered `cleanOnTransitionCancel`. So after completion, a late `transitioncancel` or `visibilitychange` writes the style again (`SlideHandlersLeak`, `CenterCompletions`).

## Model

| member | source | states |
|---|---|---|
| Geometry.Translation | src/base-animation-manager.ts:27 | the matrix moves every point by (x, y) |
| Geometry.Scaling | src/base-animation-manager.ts:47-49 | the zoom matrix multiplies every point's coordinates by the zoom |
| Geometry.RotationMatrix | src/base-animation-manager.ts:42-44 | the rotation matrix maps each point by the cosine/sine rotation |
| Geometry.Multiply | src/base-animation-manager.ts:52 | `m.multiply(n)` applies n first, then m, to every point |
| Geometry.MultiplyAssociative | src/base-animation-manager.ts:64-66 | matrix products regroup freely, so folding the chain step by step gives the whole product |
| Geometry.RotationAndScaleMatrixForElement | src/base-animation-manager.ts:33-55 | an element's rotate/zoom matrix never translates; with no transform, rotate or zoom it is the identity; with only a transform it keeps that transform's a–d |
| Geometry.StyleMatrices | src/base-animation-manager.ts:33-55 | one rotate/zoom matrix per element of the chain, in chain order |
| Geometry.ChainProductApplies | src/base-animation-manager.ts:60-70 | the folded product moves a point as applying the first element's matrix, then the next ancestor's, and so on |
| Geometry.ChainProductFirst | src/base-animation-manager.ts:64-66 | each fold step left-multiplies: the product is (outer ancestors' product)·M(first) |
| Geometry.ChainProductZeroTranslation | src/base-animation-manager.ts:60-70 | a product of translation-free matrices is translation-free |
| Geometry.StyleChainZeroTranslation | src/base-animation-manager.ts:60-70 | the rotation-and-scale matrix of any ancestor chain has e = f = 0 |
| Geometry.TopPageOffset | src/base-animation-manager.ts:20-28 | the page offset sends the origin to the bounding-box centre plus scroll and has no rotation or scale |
| Geometry.TopPageOffsetIsTranslation | src/base-animation-manager.ts:20-28 | the page offset is exactly the translation to centre plus scroll |
| Geometry.FullMatrix | src/base-animation-manager.ts:75-79 | the full matrix keeps the chain's a–d and translates by centre plus scroll plus the chain's own translation |
| Geometry.FullMatrixParts | src/base-animation-manager.ts:75-79 | for a real ancestor chain the full matrix's translation is exactly the page centre of the element |
| Geometry.RemoveScale | src/base-animation-manager.ts:84-93 | defined exactly when both column lengths are non-zero; keeps e and f; each column times its length gives back the original column |
| Geometry.RemoveRotation | src/base-animation-manager.ts:98-107 | b = c = 0, a and d are the column lengths, e and f kept |
| Geometry.RemoveTranslation | src/base-animation-manager.ts:112-118 | e = f = 0 with a–d kept, and translating it back by the old (e, f) restores the matrix |
| Geometry.RemoveScaleUnitColumns | src/base-animation-manager.ts:84-93 | after removing the scale both columns have length 1 |
| Geometry.RemoveScaleAndRotationCommute | src/base-animation-manager.ts:84-107 | removing scale and rotation, in either order, leaves the pure translation by (e, f) |
| Geometry.FullMatrixFromElementCenter | src/base-animation-manager.ts:123-136 | fails only when ignoring scale meets a zero column; with rotation ignored b = c = 0; ignoring neither gives the full matrix |
| Geometry.CenterMatrixIsPureTranslation | src/base-animation-manager.ts:123-136 | with scale and rotation ignored the centre matrix of any chain is the translation to the page centre |
| Geometry.CenterOfUntranslated | src/base-animation-manager.ts:123-136 | the same for any translation-free rotation/scale matrix |
| Geometry.ApplyMatrixScale | src/base-animation-manager.ts:239-243 | a missing matrix stays missing; otherwise a and d come from the scale matrix and b, c, e, f are kept |
| Geometry.ApplyOwnScale | src/base-animation-manager.ts:239-243 | applying a matrix's own scale to it changes nothing |
| Dom.InsertBeforePlaces | src/base-animation-manager.ts:365-371 | an inserted node lands right before its reference child, or last when there is none |
| Dom.InsertBeforeKeepsOrder | src/base-animation-manager.ts:365-371 | inserting a node keeps the relative order of the other children |
| Dom.MovedConsistent | src/base-animation-manager.ts:365-371 | moving a node keeps child lists and parent map consistent, with the node's parent now the target |
| Dom.DetachedKeepsOrder | src/animation-manager.ts:220-223 | removing a node keeps the order of the remaining siblings |
| Dom.Document.NextSibling | src/animation-manager.ts:43 | `nextElementSibling` is a different child of the same parent |
| Dom.Document.FirstChild | src/base-animation-manager.ts:285-286 | `firstElementChild` is one of the node's children |
| Dom.Document.CreateElement | src/base-animation-manager.ts:142 | a fresh, detached node with no children and no classes; nothing else changes |
| Dom.Document.AddClass | src/base-animation-manager.ts:13 | adds the class to that node only |
| Dom.Document.Remove | src/animation-manager.ts:197 | the node leaves its parent's list and the parent map, a Removed event is logged |
| Dom.Document.InsertNode | src/base-animation-manager.ts:365-371 | succeeds exactly when pre-insert is valid; a missing parent is a TypeError, an ancestor cycle a HierarchyRequestError, a foreign reference a NotFoundError; failure changes nothing, success moves the node under the parent before the reference |
| Dom.Document.Animate | src/base-animation-manager.ts:168-175 | starting an animation only appends its event to the log |
| Settings.Override | src/animation-manager.ts:35 | a key present in the top settings wins, an absent one falls back to the base |
| Settings.OverrideNeutral | src/animation-manager.ts:35 | spreading empty settings on either side changes nothing |
| Settings.OverrideAssociative | src/animation-manager.ts:218 | nested spreads regroup freely |
| Settings.OverrideAbsorbs | src/animation-manager.ts:183-189 | spreading the manager settings a second time under merged settings changes nothing |
| Settings.ManagerSettings | src/animation-manager.ts:20-23 | the manager always has a duration: the given one, else 500 |
| Settings.EffectivePrecedence | src/animation-manager.ts:20-23 | for each key: the call's value, else the manager's, and for duration finally 500 |
| Settings.SurfaceTiming | src/base-animation-manager.ts:322-327 | the surface animation runs for the duration (default 500) with the easing (default ease-in-out) |
| Settings.WithDefaultEasing | src/animation-manager.ts:51 | an orchestrator's easing default is used only when the settings carry none; duration unchanged |
| Settings.SpaceGateTable | src/base-animation-manager.ts:191-200 | unset or 'all' lets both spaces through, 'none' neither, 'from' only the shrinking one, 'to' only the growing one |
| Settings.SpaceKeyframes | src/base-animation-manager.ts:168-174 | a growing space starts at size zero, a shrinking one ends at size zero |
| Settings.CreateBumpAnimation | src/base-animation-manager.ts:295-304 | no bump exactly for null or 1; otherwise a bump of `bump ?? 1.2` at the midpoint on the innermost element, never of scale 1 |
| Settings.CreateFadeAnimation | src/base-animation-manager.ts:309-316 | opacity goes 0→1 for fade-in and 1→0 for fade-out |
| Settings.FadeInReversesFadeOut | src/base-animation-manager.ts:309-316 | the fade-in keyframes are the fade-out keyframes reversed |
| Settings.SlideParallelAnimations | src/animation-manager.ts:37-40 | the bump entry comes first, followed by the caller's parallel animations unchanged |
| Settings.SlideBumpEntry | src/animation-manager.ts:39 | the bump entry is null exactly for a bump of 1; null and undefined both give 1.2 |
| Settings.SlideSettings | src/animation-manager.ts:37-40 | only `parallelAnimations` differs from the merged settings |
| Settings.FadeSettings | src/animation-manager.ts:184-187 | the fade comes first, then the call's own parallel animations; other keys unchanged |
| Settings.TwoLegSettings | src/animation-manager.ts:70-75 | an array of length other than 2 throws; two settings are each merged over the manager's; one object serves both legs |
| AnimationUtils.ShouldAnimate | src/animations-utils.ts:1-3 | no animation while the page is hidden or the game is in instantaneous mode; otherwise animate |
| AnimationUtils.CssOrNull | src/animations/slide-animation.ts:59 | an unset or empty value becomes `null`, which leaves the property empty; a set, non-empty one is written as given |
| AnimationUtils.WriteBackTransform | src/animations-utils.ts:26-29 | clearing the transform and writing the saved one back restores the style |
| AnimationUtils.StyledElement.GetDeltaCoordinates | src/animations-utils.ts:11-41 | the result is the delta of the destination measured without transform; the style is unchanged afterwards; the transform writes happen only when an origin is measured |
| AnimationUtils.DeltaRestoresTransform | src/animations-utils.ts:26-29 | getDeltaCoordinates leaves the element's style as it found it |
| AnimationUtils.DeltaCoordinates | src/animations-utils.ts:12-14 | an error exactly when no fromDelta, fromRect or fromElement is given |
| AnimationUtils.CenterDeltaIsCenterDifference | src/animations-utils.ts:31-32 | the delta is destination centre minus origin centre |
| AnimationUtils.DeltaVerbatim | src/animations-utils.ts:19-21 | a given fromDelta is used as is, only divided by a truthy scale |
| AnimationUtils.DeltaPrefersRect | src/animations-utils.ts:23 | fromRect wins over fromElement, whose box is then never consulted |
| AnimationUtils.UnscaledRoundTrip | src/animations-utils.ts:35-38 | dividing by a non-zero scale is undone by multiplying; a missing or zero scale leaves the delta alone |
| AnimationUtils.DeltaMovesCenterBack | src/animations-utils.ts:23-32 | translating the destination centre by minus the delta lands on the origin's centre |
| Sequencing.RestShifts | src/animations/cumulated-animations.ts:17 | slicing the settings array gives the next leg the next settings |
| Sequencing.StopsUnique | src/animations/cumulated-animations.ts:14-19 | how many legs a chain starts is determined by the legs' outcomes |
| Sequencing.Cumulated | src/animations/cumulated-animations.ts:8-21 | an empty list rejects with the source's message and starts nothing; never more calls than legs |
| Sequencing.CumulatedTrace | src/animations/cumulated-animations.ts:9-19 | the legs run in order with their own settings up to and including the first rejection, and the result is that of the last leg run |
| Sequencing.CumulatedSharesSettings | src/animations/cumulated-animations.ts:9 | a single settings object is given to every leg |
| Sequencing.CumulatedPlaysAll | src/animations/cumulated-animations.ts:12-19 | when every leg succeeds, all run and the result is the last leg's |
| Sequencing.Sequentially | src/animation-manager.ts:268-273 | never starts more animations than given |
| Sequencing.SequentiallyTrace | src/animation-manager.ts:268-273 | animations start in order until the first rejection; an empty list resolves with no value |
| Sequencing.SequentiallyAgreesWithCumulated | src/animation-manager.ts:268-273 | with one shared setting, playSequentially and cumulatedAnimations start the same legs and settle alike |
| Sequencing.All | src/animation-manager.ts:263-265 | resolves exactly when every promise does, with their values in order; else rejects with one of their errors |
| Sequencing.Parallel | src/animation-manager.ts:262-266 | starts every animation and settles as Promise.all of their outcomes |
| Sequencing.PlayInterval | src/animation-manager.ts:275-299 | the i-th animation starts at i times the interval; the returned promise resolves exactly when every animation resolves, and otherwise never settles |
| Transitions.Complete | src/animations/slide-animation.ts:31-42 | completion restores the saved z-index and transition, calls animationEnd when set, settles only a pending promise, drops the end handlers and clears the timer |
| Transitions.CancelThenComplete | src/animations/slide-animation.ts:44-50 | cancelling first clears the transition and forces the final transform, then completes |
| Transitions.SettlementIsFinal | src/animations/slide-animation.ts:35 | a settled promise keeps its value whatever fires later |
| Transitions.SlideStart | src/animations/slide-animation.ts:9-62 | when hidden or instantaneous it resolves false and touches nothing; with no origin it rejects and touches nothing |
| Transitions.SlideEffectsStyle | src/animations/slide-animation.ts:22-59 | after the start writes, the style holds `zIndex ?? 10`, a linear transition of `duration ?? 500` ms and the final transform |
| Transitions.CompletionEndsWithCallback | src/animations/slide-animation.ts:34 | completion's last effect is the animationEnd call exactly when one is set |
| Transitions.SlideCompletes | src/animations/slide-animation.ts:31-61 | a slide arms its handlers and a timer at duration + 100; whichever event comes first restores z-index and transition, keeps the final transform and resolves true |
| Transitions.SlideHandlersLeak | src/animations/slide-animation.ts:36-38 | after completion the cancel handlers stay registered: transitionend does nothing more, but a late visibilitychange rewrites the style again without resettling |
| Transitions.ScreenCenterStart | src/animations/show-screen-center-animation.ts:8-62 | registers the three handlers, arms the timer at duration + 100 and stays pending |
| Transitions.ScreenCenterTarget | src/animations/show-screen-center-animation.ts:13-19 | the target transform brings the element's centre onto the viewport centre, rotated by `rotationDelta ?? 0` |
| Transitions.CenterCompletions | src/animations/show-screen-center-animation.ts:30-52 | transitionend and transitioncancel complete alike; visibilitychange forces the final transform first; all settle the same; the visibility handler stays registered |
| Transitions.SlideToStart | src/animations/slide-to-animation.ts:8-55 | rejects exactly when no origin is given, writing nothing; otherwise handlers and a timer at duration + 100 |
| Transitions.SlideToTarget | src/animations/slide-to-animation.ts:13-50 | the target is the translation by minus the delta, rotated by `rotationDelta ?? 0` and scaled by `scale ?? 1`, with z-index `zIndex ?? 10` |
| Transitions.TransitionRun.CleanOnTransitionEnd | src/animations/slide-animation.ts:31-42 | the run's state becomes the completed state |
| Transitions.TransitionRun.CleanOnTransitionCancel | src/animations/slide-animation.ts:44-50 | the run's state becomes the cancelled-then-completed state |
| Transitions.TransitionRun.Dispatch | src/animations/slide-animation.ts:52-61 | a fired event or the timer moves the run by the transition relation |
| Transitions.TransitionRun.SlideAnimation | src/animations/slide-animation.ts:8-64 | the element's new state is the slide's start state, and completion restores what was saved before it |
| Transitions.TransitionRun.ShowScreenCenterAnimation | src/animations/show-screen-center-animation.ts:8-62 | the new state is the screen-centre start state, completing to the saved values |
| Transitions.TransitionRun.SlideToAnimation | src/animations/slide-to-animation.ts:8-55 | the new state is the slide-to start state, completing to the saved values |
| BaseManager.RotationAndScale | src/base-animation-manager.ts:60-70 | the ancestor product has no translation |
| BaseManager.FullMatrixOf | src/base-animation-manager.ts:75-79 | a–d are the parent chain's product, e and f the element's page centre |
| BaseManager.ChainStep | src/base-animation-manager.ts:65 | one more ancestor left-multiplies its matrix onto the product so far |
| BaseManager.Innermost | src/base-animation-manager.ts:283-290 | a node that is not a wrapper layer is its own innermost element |
| BaseManager.InnermostOfSingleLayer | src/base-animation-manager.ts:283-290 | descending from a wrapper around an element reaches the element |
| BaseManager.OtherEndMatrix | src/base-animation-manager.ts:377-382 | without another element the element's own matrix is used; with `preserveScale` the element's own a and d are kept |
| BaseManager.RemovedNodes | src/base-animation-manager.ts:448 | exactly the non-null wrappers of the list are removed |
| BaseManager.Removals | src/base-animation-manager.ts:448 | one Removed event per non-null wrapper, each of a listed node |
| BaseManager.BaseAnimationManager.constructor | src/base-animation-manager.ts:4-15 | a fresh surface node with the surface class is appended to the body; nothing else changes |
| BaseManager.BaseAnimationManager.GetRotationAndScaleMatrix | src/base-animation-manager.ts:60-70 | the loop computes the chain product from the parent (or the element itself) up to the root, with no translation |
| BaseManager.BaseAnimationManager.GetFullMatrix | src/base-animation-manager.ts:75-79 | a–d from the parent chain, translation at the element's page centre |
| BaseManager.BaseAnimationManager.GetFullMatrixFromElementCenter | src/base-animation-manager.ts:123-136 | with rotation ignored b = c = 0; with both ignored, the translation to the element's page centre |
| BaseManager.BaseAnimationManager.CreateFillingSpace | src/base-animation-manager.ts:141-147 | a fresh detached node; the tree and the log are unchanged |
| BaseManager.BaseAnimationManager.AttachToElement | src/base-animation-manager.ts:365-371 | insertBefore or append with DOM errors; on success the element is the last child, or right before the reference |
| BaseManager.BaseAnimationManager.AddFixedSpace | src/base-animation-manager.ts:153-158 | a space with the space class is inserted at the element's place, or the DOM error is returned |
| BaseManager.BaseAnimationManager.AddAnimatedSpace | src/base-animation-manager.ts:164-185 | as above, with the kind class and one size animation logged with the settings' timing |
| BaseManager.BaseAnimationManager.AddAnimatedSpaceIfNecessary | src/base-animation-manager.ts:191-200 | when the gate refuses, nothing happens; otherwise the animated space is added |
| BaseManager.BaseAnimationManager.NewWrapperAround | src/base-animation-manager.ts:254-256 | a fresh wrapper holds exactly the element, which leaves its old parent |
| BaseManager.BaseAnimationManager.WrapOnAnimationSurface | src/base-animation-manager.ts:248-263 | the element is inside a fresh wrapper on the surface: it left its old parent, the wrapper holds only it and closes the surface's list; descending from the wrapper finds it; an element without the wrapper class is the end of a one-layer chain |
| BaseManager.BaseAnimationManager.AppendIfDetached | src/base-animation-manager.ts:250-252 | an element already in the document is left alone; one outside it becomes the surface's child, and wrapping it afterwards gives the same tree as wrapping it where it was |
| BaseManager.BaseAnimationManager.Enclose | src/base-animation-manager.ts:254-257 | the fresh wrapper holds only the element, has the wrapper class and closes the surface's list; the element left its old parent |
| BaseManager.MovedThenEnclosed | src/base-animation-manager.ts:250-257 | appending to the surface first and then wrapping leaves the same child lists as wrapping directly |
| BaseManager.WrapperChain | src/base-animation-manager.ts:254-256 | a wrapper holding only a node without the wrapper class heads a chain of one layer down to that node |
| BaseManager.ChainInnermost | src/base-animation-manager.ts:283-290 | along a chain of layers, getElementInWrapper ends at the chain's element |
| BaseManager.LayerAdded | src/base-animation-manager.ts:269-278 | addWrapperLayer on a chain's element keeps the chain, one layer longer, and every child list and class set the chain does not own |
| BaseManager.StartKeepsChain | src/base-animation-manager.ts:340-353 | each parallel start keeps the chain: an 'intermediate' entry animates the chain's element in its new layer, any other entry the first child of its fixed target |
| BaseManager.SpaceKeepsChain | src/base-animation-manager.ts:164-185 | a space inserted in the list of a node older than the wrapper keeps the chain |
| BaseManager.DetachKeepsChain | src/base-animation-manager.ts:448 | removing a child of a node older than the wrapper keeps the chain |
| BaseManager.SpaceKeepsOrder | src/base-animation-manager.ts:164-185 | inserting a space keeps any two children of any node in their order |
| BaseManager.SpacePlaced | src/base-animation-manager.ts:164-185 | a space inserted before a child of its parent sits right before that child, or last when the reference is null |
| BaseManager.SpaceKeepsPlaced | src/base-animation-manager.ts:164-185 | inserting a space keeps a node placed before its reference, with only removable nodes between |
| BaseManager.RemovalsConcat | src/base-animation-manager.ts:448 | removing two lists of wrappers one after the other logs the removals of the first, then of the second |
| Dom.MovedKeepsOrder | src/base-animation-manager.ts:365-371 | moving a third node into a list keeps two of its children in their order |
| Dom.MovedInFront | src/base-animation-manager.ts:365-371 | inserting an element right before a space that is placed before a reference places the element before that reference, with only the space and other removable nodes between |
| Dom.PlacedWithout | src/base-animation-manager.ts:448 | removing a node other than the element and its reference keeps the element placed before the reference |
| Dom.PlacedSettled | src/base-animation-manager.ts:448 | once every node between the element and its reference has left the tree, the element is right before the reference, or last |
| BaseManager.BaseAnimationManager.GetElementInWrapper | src/base-animation-manager.ts:283-290 | the loop's result is the innermost element under the wrapper layers |
| BaseManager.BaseAnimationManager.AddWrapperLayer | src/base-animation-manager.ts:269-278 | a new layer takes the innermost element's place and holds only it; a detached innermost element is a TypeError |
| BaseManager.BaseAnimationManager.StartParallelAnimation | src/base-animation-manager.ts:340-353 | a null entry is a TypeError; otherwise its keyframes are started with the timing on the first child of its target; with `applyTo` unset or 'intermediate' the target is a new layer put in the innermost element's place, so the innermost element itself is animated, and nothing else in the tree changes |
| BaseManager.BaseAnimationManager.AnimateOnAnimationSurface | src/base-animation-manager.ts:321-360 | a missing matrix throws InvalidStateError in `toString()` before anything starts or changes; otherwise the wrapper's transform animation is logged first, then every parallel animation in order; resolves with the wrapper and both matrices; when the wrapper heads a chain of layers down to the element, the chain stays one, no older node's children or classes change, and each parallel animation runs on the element or on the first child of its fixed target |
| BaseManager.BaseAnimationManager.StartSlideIn | src/base-animation-manager.ts:373-396 | the record returns the element to its parent and sibling, from the other element's (or own) matrix to its own |
| BaseManager.BaseAnimationManager.StartSlideOut | src/base-animation-manager.ts:398-420 | the record goes from the element's own matrix to the other element's (or own), and leaves it at the destination |
| BaseManager.BaseAnimationManager.StartAttach | src/base-animation-manager.ts:422-441 | an invalid attach fails without changes; else the record runs from the old to the attached matrix, measured after a trial attach; the tree it leaves is the element attached before `insertBefore` (or last) and then wrapped on the surface, with its new parent chain |
| BaseManager.BaseAnimationManager.RemoveIfSet | src/base-animation-manager.ts:448 | removes a set wrapper, keeps sibling order and keeps any other node placed before its reference |
| BaseManager.BaseAnimationManager.RemoveAll | src/base-animation-manager.ts:448 | removes every listed wrapper in order, keeps the order of what stays; an element that had only listed nodes between it and its reference ends right before the reference, or last |
| BaseManager.BaseAnimationManager.EndRunningAnimation | src/base-animation-manager.ts:443-449 | the element goes back to its destination, then every wrapper is removed, leaving it right before the space wrapper, else the recorded sibling, or last when both are null, unless that node was itself removed; a failed reattach changes nothing |
| Manager.ScreenCenterMatrix | src/animation-manager.ts:80-81 | an unrotated translation that centres a box of the element's size in the viewport, offset by scroll |
| Manager.FadeSurface | src/animation-manager.ts:183-189 | the fade leads the parallel list, and the call's duration and easing win over the manager's |
| Manager.FadeOutSurface | src/animation-manager.ts:201-205 | the same for the fade-out, with default easing ease-in |
| Manager.NullBumpUnused | src/animation-manager.ts:258-260 | the `bump: null` that addFloatingElement passes changes nothing |
| Manager.SlideTiming | src/animation-manager.ts:35 | a slide's timing is the call's, else the manager's, else 500 ms ease-in-out |
| Manager.NewAnimationManager | src/animation-manager.ts:12-24 | a missing game throws; otherwise the surface is created and the settings get a duration |
| Manager.AnimationManager.constructor | src/animation-manager.ts:20-23 | the manager's settings are the given ones with a duration |
| Manager.AnimationManager.SlideAndAttach | src/animation-manager.ts:29-59 | an invalid attach fails with no change; inactive, it only attaches; active, it animates the wrapper from old to attached matrix, started with the bump entry and then the caller's parallel animations; then the element is in its new parent right before `insertBefore`, or last when it is null, with or without a growing space, and wrapper and spaces are removed; inactive, the child lists are those of the attach alone |
| Manager.AnimationManager.SlideToScreenCenterAndAttach | src/animation-manager.ts:64-100 | a wrong settings array throws before any change; inactive, the child lists are those of the attach alone; active, two legs from the old matrix via the screen centre to the attached matrix, each starting its own parallel list, the shrink space removed between them, and the element ends right before `insertBefore`, or last when it is null |
| Manager.AnimationManager.SlideToElementAndAttach | src/animation-manager.ts:105-140 | the same via the middle matrix, which is the wrapper's unrotated centre matrix measured on the tree where the element is attached and then wrapped; it ends right before `insertBefore`, or last |
| Manager.AnimationManager.SlideOverWrapper | src/animation-manager.ts:105-140 | the active part of slideToElementAndAttach: the same two legs, log entries and final placement (right before `insertBefore`, or last, when no growing space is made or the element does not carry the wrapper class), with the middle matrix bound to the wrapped, attached tree |
| Manager.AnimationManager.SlideIn | src/animation-manager.ts:145-173 | inactive does nothing; the element slides from the wrapper's centre matrix measured on the wrapped tree (or from its own matrix) to its own matrix, then returns to its parent right before its old next sibling, or last when it had none, with or without a growing space; wrappers and space are removed |
| Manager.AnimationManager.ArriveAndLand | src/animation-manager.ts:155-172 | the wrap, the growing space and the surface animation, then the element back in its parent right before the old next sibling, or last, when no growing space is made or the element does not carry the wrapper class |
| Manager.AnimationManager.Arrive | src/animation-manager.ts:156-165 | the wrapper is the newest node, the start matrix the wrapper's centre matrix on the wrapped tree, and, for an element without the wrapper class, a growing space lands right before the old next sibling, or last |
| Manager.AnimationManager.WrapFrom | src/animation-manager.ts:156-160 | the start matrix is the element's own, or the wrapper's centre matrix measured on the tree the wrap left |
| Manager.AnimationManager.GrowAndAnimate | src/animation-manager.ts:162-165 | when the wrapper heads a one-layer chain down to the element and the parent is older than the wrapper, the growing space lands right before the next sibling, or last, and the surface animation keeps it there |
| Manager.AnimationManager.FadeIn | src/animation-manager.ts:178-190 | a slide-in whose first parallel animation is the 0→1 fade, ease-out by default; the wrapper moves from the centre matrix on the wrapped tree (or the element's own matrix) to the element's own matrix, and the element ends back right before its old next sibling, or last |
| Manager.AnimationManager.FadeOutAndDestroy | src/animation-manager.ts:195-224 | inactive, the element is just removed; active, the fade-out runs, then the element, the wrapper and the space are removed |
| Manager.AnimationManager.SlideFloatingElement | src/animation-manager.ts:229-253 | the element floats in a wrapper from and to the same matrix, the wrapper's centre matrix measured on the tree the wrap left, then element and wrapper are removed |
| Manager.AnimationManager.Float | src/animation-manager.ts:237-246 | the wrap, then a surface animation from and to the wrapper's centre matrix on the wrapped tree; success always has a matrix, and a missing centre matrix makes it fail, with InvalidStateError once the wrap succeeded |
| Manager.AnimationManager.AddFloatingElement | src/animation-manager.ts:258-260 | a floating slide with bump null: the same effect and the same matrix |
| Manager.AnimationManager.PlayInterval | src/animation-manager.ts:275-299 | the i-th animation starts at i times the interval (default a quarter of the duration); the returned promise resolves exactly when every animation resolves, and otherwise never settles |
| Legacy.Settle | bga-animations.js:236 | an animation function that returns nothing counts as resolving false |
| Legacy.LegacyAnimationManager.constructor | bga-animations.js:217-221 | the zoom manager comes from the settings |
| Legacy.LegacyAnimationManager.Merged | bga-animations.js:236 | duration is the call's, else the manager's, else 500; scale the call's, else the zoom; other keys from the call |
| Legacy.LegacyAnimationManager.AttachSettings | bga-animations.js:236 | game and the measured fromRect always win over the call |
| Legacy.LegacyAnimationManager.SlideFromSettings | bga-animations.js:270 | game and fromElement always win over the call |
| Legacy.LegacyAnimationManager.AfterAttachCalls | bga-animations.js:235 | the afterAttach callback is called once when set |
| Legacy.LegacyAnimationManager.AttachWithAnimation | bga-animations.js:231-237 | measures, then appends the element as last child, calls afterAttach, then the function with the merged settings; an ancestor cycle fails without change |
| Legacy.LegacyAnimationManager.AttachWithSlideAnimation | bga-animations.js:242-245 | the same with the slide function |
| Legacy.LegacyAnimationManager.AttachWithShowToScreenAnimation | bga-animations.js:250-259 | appends, then runs screen-centre, pause and slide-attach legs in order until the first rejection; the last leg slides with no settings from the rect the element has when that leg starts |
| Legacy.LegacyAnimationManager.SlideFromElement | bga-animations.js:268-271 | the slide gets the merged settings with game and fromElement, resolving false when it returns nothing |
| Legacy.LegacyAnimationManager.SetZoomManager | bga-animations.js:277-279 | later merges take their scale from the new zoom manager |

## Left out

- Native timing: real promises, `element.animate` and its `finished` promise, event-listener registration and `setTimeout`/`setInterval` are not modelled. An animation is an event in the document's log; a timer is a duration; promises are `Result` values.
- Browser measurement: bounding rectangles, computed styles, scroll, viewport and `Math.hypot` come from a `Browser` value. `hypot` is constrained only where a lemma requires it to be the square root of the sum of squares.
- CSS strings are not parsed or printed: transforms, transitions and z-indices are structured values. Floating-point NaN and Infinity are represented by `None`, such as a division by a zero column length. A matrix that is `None` makes `toString()` in the surface keyframes throw InvalidStateError, as DOMMatrix does for a matrix with a non-finite coefficient.
- `averageDOMMatrix` (src/base-animation-manager.ts:205-237): private and never called; it needs trigonometry.
- The older copies of `shouldAnimate`, `getDeltaCoordinates`, `slideAnimation`, `showScreenCenterAnimation`, `pauseAnimation` and `cumulatedAnimations` at the top of bga-animations.js: the src versions are modelled instead. The legacy manager plays its animation functions as opaque `Player` values.
- src/animations/attach-with-animation.ts and src/animations/pause-animation.ts are not part of this model; the pause is an opaque leg of the legacy show-to-screen chain.
- The demo pages, the zoom widget and the declaration files are not part of this model. `swap`, `sequenceAnimationsAttach` and `displayScoring` exist only as declarations. `logAnimation` only writes to the console.
- The filling spaces' measured widths and heights, and the wrapper's left/top styles: only the nodes, classes and started animations are modelled.
- Geometry.ApplyMatrixScale: returns a new matrix where the source mutates its argument in place; no caller keeps another reference to that matrix.
- Sequencing.All: when several promises reject, Promise.all rejects with the first in time; the model says only that the error is one of theirs.
- Sequencing.PlayInterval: browser clamping and drift of `setInterval` are not modelled; start times are exact multiples of the interval.
- `game.bgaAnimationsActive()` is an `active` parameter read once per orchestrator call, and `document.visibilityState` a `hidden` parameter.
- The orchestrators' `wrapper.style.transform` write at src/animation-manager.ts:212 is not modelled, since the wrapper is removed right after.
- Manager.AnimationManager.SlideIn, Manager.AnimationManager.FadeIn, Manager.AnimationManager.SlideAndAttach, Manager.AnimationManager.SlideToScreenCenterAndAttach, Manager.AnimationManager.SlideToElementAndAttach: when animated, the contract states the element's parent and its place in that parent's list (right before the reference node, or last), not the whole child and parent maps after the round trip through the wrapper.
- Manager.AnimationManager.SlideIn, Manager.AnimationManager.FadeIn, Manager.AnimationManager.SlideAndAttach, Manager.AnimationManager.Slide, Manager.AnimationManager.SlideToScreenCenterAndAttach, Manager.AnimationManager.SlideToElementAndAttach: with a growing space, the placement right before the reference node (or last) is proved when the element does not itself carry the wrapper class. For an element that does, getElementInWrapper descends into it, and the model does not follow where 'intermediate' layers then go.
- Manager.AnimationManager.ArriveAndLand: states the element's parent and its place right before the old next sibling (or last), not the whole child and parent maps; with a growing space, that place is proved only for an element without the wrapper class, as for SlideIn above.
- Manager.AnimationManager.SlideOverWrapper: states the element's parent and its place right before `insertBefore` (or last), not the whole child and parent maps; with a growing space, that place is proved only for an element without the wrapper class, as for SlideToElementAndAttach above.
- Manager.AnimationManager.Arrive: the growing space's place right before the old next sibling (or last) is stated only for an element without the wrapper class, for the same reason.
- Manager.AnimationManager.GrowAndAnimate: the growing space's place is stated only when the wrapper heads a one-layer chain down to the element and the parent is older than the wrapper; WrapFrom establishes that chain for an element without the wrapper class, and an element with it is the case above.
- Manager.AnimationManager.FadeOutAndDestroy: with a destination, the end matrix is not named in the contract; Manager.AnimationManager.WrapTo states it.
- Walks up the parent map and down the wrapper layers take at most as many steps as nodes were ever created (`nextId`). The model does not carry an acyclicity invariant, so it does not prove that this bound is never reached.
- An explicitly `undefined` key in a spread overrides in JavaScript; the model treats it as absent, as if the key were missing. Only `bump` keeps the undefined/null distinction, because the source depends on it.
- Legacy: the settings keys the legacy manager only passes through (zIndex, rotationDelta and the rest) are not modelled. The effects of the `afterAttach` callback are not modelled beyond its call.
- Legacy.LegacyAnimationManager.AttachWithShowToScreenAnimation: the third leg appends the element to the same parent a second time; the element is already the last child, so that append is not replayed.
- Helper methods such as `Depart`, `PutBack`, `Arrive`, `Leave` and `Destroy` split the orchestrators into steps; they are not functions of the source.
