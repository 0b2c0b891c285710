/**
 * BaseAnimationManager: the animation surface (a div appended to the body
 * on which animated elements float), the page-space matrices of elements,
 * filling spaces, wrapper layers, surface animations with their parallel
 * animations, and the running-animation records of the newer API.
 *
 * Layout is not computed: bounding rectangles, computed styles, scroll
 * offsets, the viewport size and `Math.hypot` come from a `Browser` value.
 * A rectangle is a function of the child lists, so it changes when the
 * tree is rearranged.
 */
module BaseManager {
  import opened JsValues
  import opened Geometry
  import opened Dom
  import opened Settings

  const SurfaceClass := "bga-animations_animation-surface"
  const WrapperClass := "bga-animations_animation-wrapper"
  const SpaceClass := "bga-animations_filling-space"

  /** The class a filling space gets for its kind: `bga-animations_filling-space-grow` / `-shrink`. */
  function SpaceKindClass(kind: SpaceType): string {
    SpaceClass + "-" + (if kind == Grow then "grow" else "shrink")
  }

  /** What the browser measures. */
  datatype Browser = Browser(
    rect: (map<Node, seq<Node>>, Node) -> Rect,   // getBoundingClientRect, given the child lists
    style: Node -> ElementStyle,                  // getComputedStyle: transform, rotate, zoom
    scroll: Point,                                // window.scrollX / scrollY
    viewport: Point,                              // window.innerWidth / innerHeight
    hypot: (real, real) -> real)                  // Math.hypot

  /** The record of an animation started by startSlideIn/startSlideOut/startAttach. */
  datatype RunningAnimation = RunningAnimation(
    element: Option<Node>,
    wrapper: Option<Node>,
    fromParent: Option<Node>,
    fromNextSibling: Option<Node>,
    toParent: Option<Node>,
    toNextSibling: Option<Node>,
    fromMatrix: Option<Matrix>,
    toMatrix: Option<Matrix>,
    toSpaceWrapper: Option<Node>,
    wrappersToRemove: Option<seq<Option<Node>>>)

  /** What a surface animation resolves to. */
  datatype SurfaceResult = SurfaceResult(animationWrapper: Node, fromMatrix: Option<Matrix>, toMatrix: Option<Matrix>)

  // ----- matrices of elements -----

  /** The computed styles of a chain of nodes. */
  function ChainStyles(b: Browser, nodes: seq<Node>): (styles: seq<ElementStyle>)
    ensures |styles| == |nodes| && forall i :: 0 <= i < |nodes| ==> styles[i] == b.style(nodes[i])
  {
    seq(|nodes|, i requires 0 <= i < |nodes| => b.style(nodes[i]))
  }

  /**
   * getRotationAndScaleMatrix on a tree: the product of the per-element
   * matrices from `start` up to (not including) the document element; it
   * never translates.
   */
  function RotationAndScale(b: Browser, parent: map<Node, Node>, fuel: nat, start: Option<Node>): (m: Matrix)
    ensures ZeroTranslation(m)
  {
    var styles := ChainStyles(b, ChainUpTo(parent, start, Root, fuel));
    StyleChainZeroTranslation(styles);
    ChainProduct(StyleMatrices(styles))
  }

  /** getFullMatrix on a tree. */
  function FullMatrixOf(b: Browser, children: map<Node, seq<Node>>, parent: map<Node, Node>, fuel: nat, n: Node): (m: Matrix)
    ensures SameLinearPart(m, RotationAndScale(b, parent, fuel, ParentOf(parent, n)))
    ensures m.e == Center(b.rect(children, n)).x + b.scroll.x && m.f == Center(b.rect(children, n)).y + b.scroll.y
  {
    FullMatrix(b.rect(children, n), b.scroll, RotationAndScale(b, parent, fuel, ParentOf(parent, n)))
  }

  /** getFullMatrixFromElementCenter on a tree (non-finite: None). */
  function CenterMatrixOf(b: Browser, children: map<Node, seq<Node>>, parent: map<Node, Node>, fuel: nat, n: Node,
                          ignoreScale: bool, ignoreRotation: bool): Option<Matrix>
  {
    FullMatrixFromElementCenter(RotationAndScale(b, parent, fuel, Some(n)), b.rect(children, n), b.scroll,
                                ignoreScale, ignoreRotation, b.hypot)
  }

  /** One more element on the chain multiplies its matrix on the left. */
  lemma ChainStep(b: Browser, visited: seq<Node>, n: Node)
    ensures ChainProduct(StyleMatrices(ChainStyles(b, visited + [n]))) ==
            Multiply(RotationAndScaleMatrixForElement(b.style(n)), ChainProduct(StyleMatrices(ChainStyles(b, visited))))
  {
    var ms := StyleMatrices(ChainStyles(b, visited + [n]));
    var init := StyleMatrices(ChainStyles(b, visited));
    assert ms[..|visited|] == init by {
      assert forall i :: 0 <= i < |visited| ==> ms[i] == init[i];
    }
    assert ms[|visited|] == RotationAndScaleMatrixForElement(b.style(n));
    assert ChainProduct(ms) == Multiply(ms[|visited|], ChainProduct(ms[..|visited|]));
  }

  /** One more element walked up from `current`: the visited prefix grows by it. */
  lemma ChainAdvance(parent: map<Node, Node>, visited: seq<Node>, current: Option<Node>, fuel: nat, whole: seq<Node>)
    requires current.Some? && current.value != Root && fuel > 0
    requires visited + ChainUpTo(parent, current, Root, fuel) == whole
    ensures (visited + [current.value]) + ChainUpTo(parent, ParentOf(parent, current.value), Root, fuel - 1) == whole
  {
    var rest := ChainUpTo(parent, ParentOf(parent, current.value), Root, fuel - 1);
    assert ChainUpTo(parent, current, Root, fuel) == [current.value] + rest;
    assert visited + ([current.value] + rest) == (visited + [current.value]) + rest;
  }

  /**
   * The loop of getRotationAndScaleMatrix: from `start` up to the document
   * element, each element's matrix multiplies the product so far on the left.
   */
  method WalkUp(b: Browser, parent: map<Node, Node>, start: Option<Node>, limit: nat) returns (m: Matrix)
    ensures m == RotationAndScale(b, parent, limit, start)
  {
    m := Identity;
    var current := start;
    var fuel := limit;
    ghost var visited: seq<Node> := [];
    while current.Some? && current.value != Root && fuel > 0
      invariant visited + ChainUpTo(parent, current, Root, fuel) == ChainUpTo(parent, start, Root, limit)
      invariant m == ChainProduct(StyleMatrices(ChainStyles(b, visited)))
      decreases fuel
    {
      ChainStep(b, visited, current.value);
      ChainAdvance(parent, visited, current, fuel, ChainUpTo(parent, start, Root, limit));
      m := Multiply(RotationAndScaleMatrixForElement(b.style(current.value)), m);
      visited := visited + [current.value];
      current := ParentOf(parent, current.value);
      fuel := fuel - 1;
    }
    assert ChainUpTo(parent, current, Root, fuel) == [];
    assert visited == visited + [];
  }

  // ----- the innermost element of a wrapper -----

  /** A node the descent goes through: a wrapper layer with a first child. */
  predicate IsLayer(children: map<Node, seq<Node>>, classes: map<Node, set<string>>, n: Node) {
    n in children && |children[n]| > 0 && n in classes && WrapperClass in classes[n]
  }

  /** getElementInWrapper: first children while the node is a wrapper layer, at most `fuel` steps. */
  function Innermost(children: map<Node, seq<Node>>, classes: map<Node, set<string>>, n: Node, fuel: nat): (r: Node)
    ensures fuel > 0 && !IsLayer(children, classes, n) ==> r == n
    decreases fuel
  {
    if fuel > 0 && IsLayer(children, classes, n) then Innermost(children, classes, children[n][0], fuel - 1) else n
  }

  /** A layer whose only child is not a layer leads straight to that child. */
  lemma InnermostOfSingleLayer(children: map<Node, seq<Node>>, classes: map<Node, set<string>>, w: Node, e: Node, fuel: nat)
    requires w in children && children[w] == [e] && w in classes && WrapperClass in classes[w]
    requires !IsLayer(children, classes, e) && fuel >= 2
    ensures Innermost(children, classes, w, fuel) == e
  {
  }

  /**
   * From `n` down to `e`: each node with the wrapper class is a layer
   * created since `lo` holding exactly one child, and `e` is the first node
   * without the wrapper class, within `fuel` steps. A wrapper just made
   * around an element that is not itself a wrapper is such a chain.
   */
  ghost predicate LayerChain(children: map<Node, seq<Node>>, classes: map<Node, set<string>>, n: Node, e: Node, lo: nat,
                             fuel: nat)
    decreases fuel
  {
    if n in classes && WrapperClass !in classes[n] then n == e
    else
      && fuel > 0 && lo <= n && n in children && n in classes && |children[n]| == 1
      && LayerChain(children, classes, children[n][0], e, lo, fuel - 1)
  }

  /** A wrapper holding only a node without the wrapper class heads a chain of one layer. */
  lemma WrapperChain(children: map<Node, seq<Node>>, classes: map<Node, set<string>>, w: Node, e: Node, fuel: nat)
    requires fuel > 0 && w in children && children[w] == [e] && w in classes && WrapperClass in classes[w]
    requires e in classes && WrapperClass !in classes[e]
    ensures LayerChain(children, classes, w, e, w, fuel)
  {
    assert LayerChain(children, classes, e, e, w, fuel - 1);
  }

  /** The chain's element does not have the wrapper class. */
  lemma {:induction false} ChainEnd(children: map<Node, seq<Node>>, classes: map<Node, set<string>>, n: Node, e: Node,
                                    lo: nat, fuel: nat)
    requires LayerChain(children, classes, n, e, lo, fuel)
    ensures e in classes && WrapperClass !in classes[e]
    decreases fuel
  {
    if !(n in classes && WrapperClass !in classes[n]) {
      ChainEnd(children, classes, children[n][0], e, lo, fuel - 1);
    }
  }

  /** Along a chain, getElementInWrapper ends at the chain's element. */
  lemma {:induction false} ChainInnermost(children: map<Node, seq<Node>>, classes: map<Node, set<string>>, n: Node, e: Node,
                                          lo: nat, fuel: nat)
    requires LayerChain(children, classes, n, e, lo, fuel)
    ensures Innermost(children, classes, n, fuel) == e
    decreases fuel
  {
    if !(n in classes && WrapperClass !in classes[n]) {
      ChainInnermost(children, classes, children[n][0], e, lo, fuel - 1);
    }
  }

  /** A chain found within some steps is found within more. */
  lemma {:induction false} ChainFuel(children: map<Node, seq<Node>>, classes: map<Node, set<string>>, n: Node, e: Node,
                                     lo: nat, fuel: nat, more: nat)
    requires LayerChain(children, classes, n, e, lo, fuel) && fuel <= more
    ensures LayerChain(children, classes, n, e, lo, more)
    decreases fuel
  {
    if !(n in classes && WrapperClass !in classes[n]) {
      ChainFuel(children, classes, children[n][0], e, lo, fuel - 1, more - 1);
    }
  }

  /** The child lists of the nodes before `lo`, and of those without the wrapper class, are those of `c0`. */
  ghost predicate ListsKept(c0: map<Node, seq<Node>>, k0: map<Node, set<string>>, c: map<Node, seq<Node>>, lo: nat) {
    forall q :: q in c0 && q in k0 && (q < lo || WrapperClass !in k0[q]) ==> q in c && c[q] == c0[q]
  }

  /** The list of one node older than `lo` is kept. */
  lemma ListKept(c0: map<Node, seq<Node>>, k0: map<Node, set<string>>, c: map<Node, seq<Node>>, lo: nat, q: Node)
    requires ListsKept(c0, k0, c, lo) && q in c0 && q in k0 && q < lo
    ensures q in c && c[q] == c0[q]
  {
  }

  /** No class set of an existing node changes. */
  ghost predicate ClassesKept(k0: map<Node, set<string>>, k: map<Node, set<string>>) {
    forall q :: q in k0 ==> q in k && k[q] == k0[q]
  }

  /** A chain survives a change that keeps the layers' child lists and every class set. */
  lemma {:induction false} ChainFrame(c: map<Node, seq<Node>>, k: map<Node, set<string>>, c': map<Node, seq<Node>>,
                                      k': map<Node, set<string>>, n: Node, e: Node, lo: nat, fuel: nat)
    requires LayerChain(c, k, n, e, lo, fuel) && ClassesKept(k, k')
    requires forall q :: q in c && q in k && lo <= q && WrapperClass in k[q] ==> q in c' && c'[q] == c[q]
    ensures LayerChain(c', k', n, e, lo, fuel)
    decreases fuel
  {
    if !(n in k && WrapperClass !in k[n]) {
      ChainFrame(c, k, c', k', c[n][0], e, lo, fuel - 1);
    }
  }

  /** The chain's element sits alone in the last layer, a node created since `lo`. */
  lemma {:induction false} ChainParent(c: map<Node, seq<Node>>, p: map<Node, Node>, k: map<Node, set<string>>, n: Node,
                                       e: Node, lo: nat, fuel: nat)
    requires Consistent(c, p) && LayerChain(c, k, n, e, lo, fuel) && n != e
    ensures e in p && lo <= p[e] && p[e] in c && c[p[e]] == [e] && p[e] in k && WrapperClass in k[p[e]]
    decreases fuel
  {
    var m := c[n][0];
    assert c[n] == [m];
    if m == e {
      assert e in c[n];
    } else {
      ChainParent(c, p, k, m, e, lo, fuel - 1);
    }
  }

  /**
   * The child lists after addWrapperLayer: the innermost element `e` leaves
   * its parent for the new layer `l`, which is appended to that parent.
   */
  ghost function Layered(c: map<Node, seq<Node>>, p: map<Node, Node>, e: Node, l: Node): map<Node, seq<Node>>
    requires e in p && p[e] in c
  {
    var detached := Detached(c, p, e);
    detached[l := [e]][p[e] := detached[p[e]] + [l]]
  }

  /**
   * A new layer keeps the chain, one step longer: it takes the element's
   * place as the only child of the last layer and holds the element alone;
   * no other list changes.
   */
  lemma {:induction false} ChainLayered(c: map<Node, seq<Node>>, p: map<Node, Node>, k: map<Node, set<string>>, n: Node,
                                        e: Node, lo: nat, fuel: nat, l: Node)
    requires Consistent(c, p) && LayerChain(c, k, n, e, lo, fuel) && n != e
    requires l !in c && l !in k && lo <= l
    ensures e in p && p[e] in c && c[p[e]] == [e]
    ensures LayerChain(Layered(c, p, e, l), k[l := {WrapperClass}], n, e, lo, fuel + 1)
    ensures Layered(c, p, e, l)[p[e]] == [l] && Layered(c, p, e, l)[l] == [e]
    ensures forall q :: q in c && q != p[e] ==> Layered(c, p, e, l)[q] == c[q]
    decreases fuel
  {
    ChainParent(c, p, k, n, e, lo, fuel);
    ChainEnd(c, k, n, e, lo, fuel);
    var c', k' := Layered(c, p, e, l), k[l := {WrapperClass}];
    var m := c[n][0];
    assert c[n] == [m];
    assert Without([e], e) == [];
    if m == e {
      assert p[e] == n;
      assert LayerChain(c', k', e, e, lo, fuel - 1);
      assert LayerChain(c', k', l, e, lo, fuel);
    } else {
      assert p[e] != n;
      ChainLayered(c, p, k, m, e, lo, fuel - 1, l);
      assert c'[n] == c[n];
    }
  }

  /**
   * A layer added around the chain's element keeps the chain, one step
   * longer, and every child list and class set the chain does not own.
   */
  lemma LayerAdded(c: map<Node, seq<Node>>, p: map<Node, Node>, k: map<Node, set<string>>, n: nat,
                   wrapper: Node, e: Node, lo: nat, c0: map<Node, seq<Node>>, k0: map<Node, set<string>>)
    requires Consistent(c, p) && (forall q :: q in c ==> q < n) && n !in k
    requires LayerChain(c, k, wrapper, e, lo, n) && wrapper != e
    requires ListsKept(c0, k0, c, lo) && ClassesKept(k0, k)
    ensures e in p && p[e] in c
    ensures LayerChain(Layered(c, p, e, n), k[n := {WrapperClass}], wrapper, e, lo, n + 1)
    ensures ListsKept(c0, k0, Layered(c, p, e, n), lo) && ClassesKept(k0, k[n := {WrapperClass}])
  {
    assert lo <= wrapper < n;
    ChainLayered(c, p, k, wrapper, e, lo, n, n);
    ChainParent(c, p, k, wrapper, e, lo, n);
  }

  // ----- attaching -----

  /** The child lists once a new node `s` is inserted in `parent`'s list before `ref`. */
  ghost function SpaceInserted(c: map<Node, seq<Node>>, s: Node, parent: Node, ref: Option<Node>): map<Node, seq<Node>>
    requires parent in c
  {
    c[s := []][parent := InsertBefore(c[parent], s, ref)]
  }

  /** A space inserted in the list of a node older than `lo` keeps a chain of layers, one step longer. */
  lemma SpaceKeepsChain(c: map<Node, seq<Node>>, k: map<Node, set<string>>, n: nat, s: Node, parent: Node, ref: Option<Node>,
                        names: set<string>, w: Node, e: Node, lo: nat)
    requires parent in c && parent < lo && s !in c && s !in k && LayerChain(c, k, w, e, lo, n)
    ensures LayerChain(SpaceInserted(c, s, parent, ref), k[s := names], w, e, lo, n + 1)
  {
    ChainFrame(c, k, SpaceInserted(c, s, parent, ref), k[s := names], w, e, lo, n);
    ChainFuel(SpaceInserted(c, s, parent, ref), k[s := names], w, e, lo, n, n + 1);
  }

  /** Removing a child of a node older than `lo` keeps a chain of layers. */
  lemma DetachKeepsChain(c: map<Node, seq<Node>>, p: map<Node, Node>, k: map<Node, set<string>>, s: Node,
                         w: Node, e: Node, lo: nat, n: nat)
    requires Consistent(c, p) && s in p && p[s] < lo && LayerChain(c, k, w, e, lo, n)
    ensures LayerChain(Detached(c, p, s), k, w, e, lo, n)
  {
    ChainFrame(c, k, Detached(c, p, s), k, w, e, lo, n);
  }

  /** A space inserted anywhere keeps two children of `to` in their order. */
  lemma SpaceKeepsOrder(c: map<Node, seq<Node>>, p: map<Node, Node>, s: Node, parent: Node, ref: Option<Node>,
                        to: Node, x: Node, y: Node)
    requires Consistent(c, p) && s !in c && parent in c && to in c && Precedes(c[to], x, y)
    ensures Precedes(SpaceInserted(c, s, parent, ref)[to], x, y)
  {
    if to == parent {
      assert s !in c[to];
      InsertBeforeKeepsOrder(c[to], s, ref, x, y);
    }
  }

  /** A new space inserted before a child of `parent` ends up right before it; with no such child, last. */
  lemma SpacePlaced(c: map<Node, seq<Node>>, p: map<Node, Node>, s: Node, parent: Node, ref: Option<Node>)
    requires Consistent(c, p) && s !in c && parent in c && (ref.Some? ==> ref.value in c[parent])
    ensures RightBefore(SpaceInserted(c, s, parent, ref)[parent], s, ref)
  {
    assert s !in c[parent];
    InsertBeforePlaces(c[parent], s, ref);
  }

  /** A space of `skip` inserted anywhere keeps `x` placed before `ref` in the list of `to`. */
  lemma SpaceKeepsPlaced(c: map<Node, seq<Node>>, p: map<Node, Node>, s: Node, parent: Node, at: Option<Node>,
                         to: Node, x: Node, ref: Option<Node>, skip: set<Node>)
    requires Consistent(c, p) && s !in c && parent in c && to in c && s in skip && PlacedBefore(c[to], x, ref, skip)
    ensures PlacedBefore(SpaceInserted(c, s, parent, at)[to], x, ref, skip)
  {
    if to == parent {
      assert s !in c[to];
      PlacedInsert(c[to], s, at, x, ref, skip);
    }
  }

  /** The checks of `to.insertBefore(x, ref)` that do not depend on `x`: `to` is set, `ref` is unset or a child of `to`. */
  predicate AttachTargetValid(parent: map<Node, Node>, to: Option<Node>, ref: Option<Node>) {
    to.Some? && (ref.Some? ==> ref.value in parent && parent[ref.value] == to.value)
  }

  // ----- parallel animations -----

  /** The parallel animations of the settings, none when unset. */
  function ParallelList(s: AnimationSettings): seq<Option<ParallelAnimation>> {
    if s.parallelAnimations.Some? then s.parallelAnimations.value else []
  }

  /** The elements the parallel animations name exist. */
  predicate NamedElementsExist(list: seq<Option<ParallelAnimation>>, nextId: nat) {
    forall k :: 0 <= k < |list| && list[k].Some? && list[k].value.applyToElement.Some? ==>
      list[k].value.applyToElement.value < nextId
  }

  /** An entry that leaves the tree alone: null, with an element, or applied to the wrapper or the element. */
  predicate AddsNoLayer(entry: Option<ParallelAnimation>) {
    entry.None? || entry.value.applyToElement.Some? ||
    (entry.value.applyTo.Some? && entry.value.applyTo.value != IntermediateTarget)
  }

  /** The element whose first child an entry that adds no layer animates. */
  function FixedTarget(p: ParallelAnimation, wrapper: Node, innermost: Node): Node {
    if p.applyToElement.Some? then p.applyToElement.value
    else if p.applyTo == Some(WrapperTarget) then wrapper
    else innermost
  }

  /** No entry adds a wrapper layer, so the tree stays as it is. */
  predicate Unlayered(list: seq<Option<ParallelAnimation>>) {
    forall k :: 0 <= k < |list| ==> AddsNoLayer(list[k])
  }

  /** An entry that adds no layer can start: it is set and its target has a first child. */
  predicate EntryAnimatable(entry: Option<ParallelAnimation>, wrapper: Node, innermost: Node, children: map<Node, seq<Node>>) {
    entry.Some? &&
    var t := FixedTarget(entry.value, wrapper, innermost);
    t in children && |children[t]| > 0
  }

  /** Each entry is set and started an animation with its keyframes and the timing, in order. */
  predicate Started(events: seq<DomEvent>, list: seq<Option<ParallelAnimation>>, timing: Timing) {
    |events| == |list| &&
    forall k :: 0 <= k < |list| ==>
      list[k].Some? && events[k].Animated? && events[k].keyframes == list[k].value.keyframes && events[k].timing == timing
  }

  /** Each animation ran on the first child of its entry's element. */
  predicate StartedOn(events: seq<DomEvent>, list: seq<Option<ParallelAnimation>>, wrapper: Node, innermost: Node,
                      children: map<Node, seq<Node>>) {
    |events| == |list| &&
    forall k :: 0 <= k < |list| ==>
      EntryAnimatable(list[k], wrapper, innermost, children) && events[k].Animated? &&
      events[k].target == children[FixedTarget(list[k].value, wrapper, innermost)][0]
  }

  /** A node the chain does not own: a node of `c0`, older than `lo` or not an animation wrapper. */
  ghost predicate KeptNode(q: Node, c0: map<Node, seq<Node>>, k0: map<Node, set<string>>, lo: nat) {
    q in c0 && q in k0 && (q < lo || WrapperClass !in k0[q])
  }

  /**
   * Each entry is set and started an animation: an entry that adds a layer
   * on the chain's element `e`, another one on the first child of its
   * element as it was in `c0`, when the chain does not own that element.
   */
  ghost predicate StartedInChain(events: seq<DomEvent>, list: seq<Option<ParallelAnimation>>, wrapper: Node, e: Node,
                                 c0: map<Node, seq<Node>>, k0: map<Node, set<string>>, lo: nat) {
    |events| == |list| &&
    forall i :: 0 <= i < |list| ==>
      && list[i].Some? && events[i].Animated?
      && (!AddsNoLayer(list[i]) ==> events[i].target == e)
      && (AddsNoLayer(list[i]) && KeptNode(FixedTarget(list[i].value, wrapper, e), c0, k0, lo) ==>
            |c0[FixedTarget(list[i].value, wrapper, e)]| > 0 &&
            events[i].target == c0[FixedTarget(list[i].value, wrapper, e)][0])
  }

  /** Starting one more parallel animation, as animateOnAnimationSurface does, keeps the chain facts. */
  lemma StartKeepsChain(c: map<Node, seq<Node>>, p: map<Node, Node>, k: map<Node, set<string>>, n: nat,
                        c': map<Node, seq<Node>>, k': map<Node, set<string>>, n': nat,
                        entry: Option<ParallelAnimation>, ev: DomEvent, events: seq<DomEvent>, prefix: seq<Option<ParallelAnimation>>,
                        wrapper: Node, e: Node, lo: nat, c0: map<Node, seq<Node>>, k0: map<Node, set<string>>)
    requires Consistent(c, p) && (forall q :: q in c ==> q < n) && n !in k
    requires LayerChain(c, k, wrapper, e, lo, n) && wrapper != e
    requires ListsKept(c0, k0, c, lo) && ClassesKept(k0, k) && StartedInChain(events, prefix, wrapper, e, c0, k0, lo)
    requires entry.Some? && ev.Animated?
    requires AddsNoLayer(entry) ==>
               c' == c && k' == k && n' == n && EntryAnimatable(entry, wrapper, e, c) &&
               ev.target == c[FixedTarget(entry.value, wrapper, e)][0]
    requires !AddsNoLayer(entry) ==>
               ev.target == e && e in p && p[e] in c && c' == Layered(c, p, e, n) && k' == k[n := {WrapperClass}] && n' == n + 1
    ensures LayerChain(c', k', wrapper, e, lo, n') && ListsKept(c0, k0, c', lo) && ClassesKept(k0, k')
    ensures StartedInChain(events + [ev], prefix + [entry], wrapper, e, c0, k0, lo)
  {
    if !AddsNoLayer(entry) {
      LayerAdded(c, p, k, n, wrapper, e, lo, c0, k0);
    }
    var events', list' := events + [ev], prefix + [entry];
    forall i | 0 <= i < |list'|
      ensures && list'[i].Some? && events'[i].Animated?
              && (!AddsNoLayer(list'[i]) ==> events'[i].target == e)
              && (AddsNoLayer(list'[i]) && KeptNode(FixedTarget(list'[i].value, wrapper, e), c0, k0, lo) ==>
                    |c0[FixedTarget(list'[i].value, wrapper, e)]| > 0 &&
                    events'[i].target == c0[FixedTarget(list'[i].value, wrapper, e)][0])
    {
      if i < |prefix| {
        assert list'[i] == prefix[i] && events'[i] == events[i];
      }
    }
  }

  // ----- running animations -----

  /**
   * The matrix at the other end of a slide in / slide out: the other
   * element's centre matrix, or the element's own matrix without one; with
   * the element's own scale when `preserveScale`.
   */
  function OtherEndMatrix(own: Matrix, other: Option<Option<Matrix>>, preserveScale: bool): (m: Option<Matrix>)
    ensures other.None? ==> m == Some(own)
    ensures other.Some? ==> (m.Some? <==> other.value.Some?)
    ensures preserveScale && m.Some? ==> m.value.a == own.a && m.value.d == own.d
    ensures !preserveScale && other.Some? ==> m == other.value
  {
    var m := if other.Some? then other.value else Some(own);
    ApplyOwnScale(own);
    if preserveScale then ApplyMatrixScale(m, own) else m
  }

  /** The nodes of a running animation exist. */
  predicate RecordExists(ra: RunningAnimation, nextId: nat) {
    && (ra.element.Some? ==> ra.element.value < nextId)
    && (ra.toParent.Some? ==> ra.toParent.value < nextId)
    && (ra.toSpaceWrapper.Some? ==> ra.toSpaceWrapper.value < nextId)
    && (ra.toNextSibling.Some? ==> ra.toNextSibling.value < nextId)
    && (ra.wrappersToRemove.Some? ==>
          forall k :: 0 <= k < |ra.wrappersToRemove.value| && ra.wrappersToRemove.value[k].Some? ==>
            ra.wrappersToRemove.value[k].value < nextId)
  }

  /** `wrappersToRemove ?? []`. */
  function WrappersToRemove(ra: RunningAnimation): seq<Option<Node>> {
    if ra.wrappersToRemove.Some? then ra.wrappersToRemove.value else []
  }

  /** The nodes `list?.forEach(w => w?.remove())` removes. */
  function RemovedNodes(ws: seq<Option<Node>>): (r: set<Node>)
    ensures forall n :: n in r <==> exists k :: 0 <= k < |ws| && ws[k] == Some(n)
    decreases |ws|
  {
    if |ws| == 0 then {}
    else
      var init := ws[..|ws| - 1];
      assert forall k :: 0 <= k < |init| ==> init[k] == ws[k];
      RemovedNodes(init) + (if ws[|ws| - 1].Some? then {ws[|ws| - 1].value} else {})
  }

  /** The events of those removals, in list order. */
  function Removals(ws: seq<Option<Node>>): (r: seq<DomEvent>)
    ensures |r| <= |ws|
    ensures forall k :: 0 <= k < |r| ==> r[k].Removed? && r[k].node in RemovedNodes(ws)
    ensures forall n :: Removed(n) in r <==> n in RemovedNodes(ws)
    ensures (forall k :: 0 <= k < |ws| ==> ws[k].Some?) ==> |r| == |ws|
    ensures (forall k :: 0 <= k < |ws| ==> ws[k].None?) ==> r == []
    decreases |ws|
  {
    if |ws| == 0 then []
    else
      var init := ws[..|ws| - 1];
      assert forall k :: 0 <= k < |init| ==> init[k] == ws[k];
      Removals(init) + (if ws[|ws| - 1].Some? then [Removed(ws[|ws| - 1].value)] else [])
  }

  /**
   * The removals of two lists one after the other are those of the first
   * then those of the second: with the one-entry lists, each set entry is
   * removed once, in list order, and an unset one adds nothing.
   */
  lemma {:induction false} RemovalsConcat(a: seq<Option<Node>>, b: seq<Option<Node>>)
    ensures Removals(a + b) == Removals(a) + Removals(b)
    decreases |b|
  {
    if |b| == 0 {
      assert a + b == a;
    } else {
      var b', last := b[..|b| - 1], b[|b| - 1];
      var tail := if last.Some? then [Removed(last.value)] else [];
      assert (a + b)[..|a + b| - 1] == a + b' && (a + b)[|a + b| - 1] == last;
      assert Removals(a + b) == Removals(a + b') + tail;
      assert Removals(b) == Removals(b') + tail;
      RemovalsConcat(a, b');
    }
  }

  /** A one-entry list removes its node when set, nothing otherwise. */
  lemma RemovalsSingle(w: Option<Node>)
    ensures Removals([w]) == if w.Some? then [Removed(w.value)] else []
  {
    assert [w][..0] == [];
  }

  /** From an existing node the descent ends at an existing node. */
  lemma {:induction false} InnermostExists(children: map<Node, seq<Node>>, parent: map<Node, Node>,
                                           classes: map<Node, set<string>>, n: Node, fuel: nat, nextId: nat)
    requires Consistent(children, parent) && (forall m: Node :: m in children <==> m < nextId) && n < nextId
    ensures Innermost(children, classes, n, fuel) < nextId
    decreases fuel
  {
    if fuel > 0 && IsLayer(children, classes, n) {
      assert children[n][0] in children[n];
      assert children[n][0] in parent;
      InnermostExists(children, parent, classes, children[n][0], fuel - 1, nextId);
    }
  }

  lemma OverwriteKey<K, V>(m: map<K, V>, k: K, a: V, b: V)
    ensures m[k := a][k := b] == m[k := b]
  {
  }

  /**
   * The child lists after wrapOnAnimationSurface: `x` leaves its parent, the
   * new wrapper `w` holds `x` alone and closes the surface's list.
   */
  function Enclosed(children: map<Node, seq<Node>>, parent: map<Node, Node>, x: Node, w: Node, surface: Node)
    : map<Node, seq<Node>>
    requires (x in parent ==> parent[x] in children) && surface in children
  {
    var d := Detached(children, parent, x);
    d[w := [x]][surface := d[surface] + [w]]
  }

  /** The child lists once `x` is attached to `to` before `ref` and then wrapped in `w` on the surface. */
  ghost function AttachedEnclosed(children: map<Node, seq<Node>>, parent: map<Node, Node>, x: Node, to: Node, ref: Option<Node>,
                                  w: Node, surface: Node): map<Node, seq<Node>>
    requires to in children && surface in children && (x in parent ==> parent[x] in children)
  {
    var moved := Moved(children, parent, x, to, EffectiveReference(children, parent, x, ref));
    assert to in moved && surface in moved by {
      var d := Detached(children, parent, x);
      assert to in d && surface in d;
    }
    Enclosed(moved, parent[x := to], x, w, surface)
  }

  /**
   * getFullMatrixFromElementCenter(w, truthy, ignoreRotation) measured right
   * after wrapOnAnimationSurface put `x` in the new wrapper `w`: the tree is
   * the enclosed one and `w` is the newest node.
   */
  ghost function WrappedCenterMatrix(b: Browser, children: map<Node, seq<Node>>, parent: map<Node, Node>, x: Node, w: Node,
                                     surface: Node, ignoreRotation: bool): Option<Matrix>
    requires (x in parent ==> parent[x] in children) && surface in children
  {
    CenterMatrixOf(b, Enclosed(children, parent, x, w, surface), parent[x := w][w := surface], w + 1, w, true, ignoreRotation)
  }

  /** The centre matrix of the newest wrapper, measured on the tree the wrap left. */
  lemma WrappedMeasured(b: Browser, children: map<Node, seq<Node>>, parent: map<Node, Node>, x: Node, w: Node, surface: Node,
                        c: map<Node, seq<Node>>, p: map<Node, Node>, n: nat, ignoreRotation: bool)
    requires (x in parent ==> parent[x] in children) && surface in children
    requires c == Enclosed(children, parent, x, w, surface) && p == parent[x := w][w := surface] && n == w + 1
    ensures CenterMatrixOf(b, c, p, n, w, true, ignoreRotation) ==
            WrappedCenterMatrix(b, children, parent, x, w, surface, ignoreRotation)
  {
  }

  /** A node moved to the end of the surface's list and then wrapped leaves the same lists as one wrapped where it was. */
  lemma MovedThenEnclosed(children: map<Node, seq<Node>>, parent: map<Node, Node>, x: Node, w: Node, surface: Node)
    requires Consistent(children, parent) && x in children && surface in children
    ensures Enclosed(Moved(children, parent, x, surface, EffectiveReference(children, parent, x, None)), parent[x := surface],
                     x, w, surface) ==
            Enclosed(children, parent, x, w, surface)
  {
    var d := Detached(children, parent, x);
    DetachedConsistent(children, parent, x);
    assert x !in d[surface];
    var m := d[surface := d[surface] + [x]];
    assert Moved(children, parent, x, surface, EffectiveReference(children, parent, x, None)) == m;
    WithoutAppended(d[surface], x);
    assert m[surface := Without(m[surface], x)] == d;
  }

  /** Appending a node that has no parent adds it at the end of the list and changes no other list. */
  lemma AppendedUnparented(children: map<Node, seq<Node>>, parent: map<Node, Node>, x: Node, to: Node)
    requires x !in parent && to in children
    ensures Moved(children, parent, x, to, EffectiveReference(children, parent, x, None)) == children[to := children[to] + [x]]
  {
  }

  /** The next node to be created is nobody's parent, has no parent and is its only inclusive ancestor. */
  lemma FreshNode(children: map<Node, seq<Node>>, parent: map<Node, Node>, nextId: nat, fuel: nat)
    requires Consistent(children, parent) && (forall n: Node :: n in children <==> n < nextId) && fuel > 0
    ensures nextId !in children && nextId !in parent && InclusiveAncestors(parent, nextId, fuel) == [nextId]
    ensures forall c :: c in parent ==> parent[c] != nextId
  {
  }

  /** Moving a node into a new empty node leaves it the only child there. */
  lemma MovedIntoFresh(children: map<Node, seq<Node>>, parent: map<Node, Node>, x: Node, w: Node)
    requires x in parent ==> parent[x] in children
    requires w !in children && w !in parent && x != w
    ensures var c := children[w := []];
            Moved(c, parent, x, w, EffectiveReference(c, parent, x, None)) == Detached(children, parent, x)[w := [x]]
  {
    var c := children[w := []];
    assert EffectiveReference(c, parent, x, None) == None;
    assert Detached(c, parent, x) == Detached(children, parent, x)[w := []];
    assert Detached(c, parent, x)[w] == [];
    assert InsertBefore([], x, None) == [x];
  }

  /** Removing the nodes of one more list entry from a parent map. */
  lemma ParentStep(m: map<Node, Node>, ws: seq<Option<Node>>, i: nat)
    requires i < |ws|
    ensures (m - RemovedNodes(ws[..i])) - (if ws[i].Some? then {ws[i].value} else {}) == m - RemovedNodes(ws[..i + 1])
  {
    RemovalStep(ws, i);
  }

  /** Logging the removal of one more list entry. */
  lemma LogStep(log: seq<DomEvent>, ws: seq<Option<Node>>, i: nat)
    requires i < |ws|
    ensures (log + Removals(ws[..i])) + (if ws[i].Some? then [Removed(ws[i].value)] else []) == log + Removals(ws[..i + 1])
  {
    RemovalStep(ws, i);
  }

  /** A set entry of the list is among the removed nodes. */
  lemma RemovedAt(ws: seq<Option<Node>>, i: nat)
    requires i < |ws| && ws[i].Some?
    ensures ws[i].value in RemovedNodes(ws)
  {
  }

  /** One more list entry removes one more node, when set. */
  lemma RemovalStep(ws: seq<Option<Node>>, i: nat)
    requires i < |ws|
    ensures RemovedNodes(ws[..i + 1]) == RemovedNodes(ws[..i]) + (if ws[i].Some? then {ws[i].value} else {})
    ensures Removals(ws[..i + 1]) == Removals(ws[..i]) + (if ws[i].Some? then [Removed(ws[i].value)] else [])
  {
    assert ws[..i + 1][..i] == ws[..i];
  }

  /** The body of createAnimationSurface: a new div gets the surface class and is appended to the body. */
  method CreateSurface(doc: Document) returns (s: Node)
    requires doc.Valid()
    modifies doc
    ensures doc.Valid() && doc.Exists(s)
    ensures s == old(doc.nextId) && doc.nextId == s + 1
    ensures doc.HasClass(s, SurfaceClass)
    ensures doc.parent == old(doc.parent)[s := Body]
    ensures doc.children == old(doc.children)[s := []][Body := old(doc.children)[Body] + [s]]
    ensures doc.log == old(doc.log)
  {
    ghost var p0 := doc.parent;
    assert forall c :: c in p0 ==> p0[c] < doc.nextId;
    s := doc.CreateElement();
    doc.AddClass(s, SurfaceClass);
    NotAParentNotAncestor(doc.parent, Body, s, doc.nextId);
    var r := doc.InsertNode(s, Some(Body), None);
  }

  class BaseAnimationManager {
    const doc: Document
    const animationSurface: Node

    ghost predicate Valid()
      reads doc
    {
      doc.Valid() && doc.Exists(animationSurface)
    }

    /** createAnimationSurface: a new div with the surface class, appended to the body. */
    constructor (doc: Document)
      requires doc.Valid()
      modifies doc
      ensures this.doc == doc && Valid()
      ensures animationSurface == old(doc.nextId) && doc.nextId == animationSurface + 1
      ensures doc.HasClass(animationSurface, SurfaceClass)
      ensures doc.parent == old(doc.parent)[animationSurface := Body]
      ensures doc.children == old(doc.children)[animationSurface := []][Body := old(doc.children)[Body] + [animationSurface]]
      ensures doc.log == old(doc.log)
    {
      this.doc := doc;
      var s := CreateSurface(doc);
      animationSurface := s;
    }

    /**
     * getRotationAndScaleMatrix: walks up from the parent (or the element
     * itself), left-multiplying each element's rotation/scale matrix, until
     * the document element or a missing parent.
     */
    method GetRotationAndScaleMatrix(element: Node, includeSelf: bool, b: Browser) returns (m: Matrix)
      ensures m == RotationAndScale(b, doc.parent, doc.nextId, if includeSelf then Some(element) else ParentOf(doc.parent, element))
      ensures ZeroTranslation(m)
    {
      m := WalkUp(b, doc.parent, if includeSelf then Some(element) else ParentOf(doc.parent, element), doc.nextId);
    }

    /**
     * getFullMatrix: the rotation and scale of the ancestors, translated to
     * the page-space centre of the element's box.
     */
    method GetFullMatrix(element: Node, b: Browser) returns (m: Matrix)
      ensures m == FullMatrixOf(b, doc.children, doc.parent, doc.nextId, element)
      ensures SameLinearPart(m, RotationAndScale(b, doc.parent, doc.nextId, ParentOf(doc.parent, element)))
      ensures m.e == Center(b.rect(doc.children, element)).x + b.scroll.x
      ensures m.f == Center(b.rect(doc.children, element)).y + b.scroll.y
    {
      var rs := GetRotationAndScaleMatrix(element, false, b);
      var rect := b.rect(doc.children, element);
      m := Multiply(TopPageOffset(rect, b.scroll), rs);
    }

    /**
     * getFullMatrixFromElementCenter: the element's own chain (itself
     * included), without scale and/or rotation, at the element's centre.
     */
    method GetFullMatrixFromElementCenter(parentElement: Node, ignoreScale: bool, ignoreRotation: bool, b: Browser)
      returns (m: Option<Matrix>)
      ensures m == CenterMatrixOf(b, doc.children, doc.parent, doc.nextId, parentElement, ignoreScale, ignoreRotation)
      ensures m.Some? && ignoreRotation ==> m.value.b == 0.0 && m.value.c == 0.0
      ensures ignoreScale && ignoreRotation && IsHypot(b.hypot) && m.Some? ==>
                m == Some(Translation(Center(b.rect(doc.children, parentElement)).x + b.scroll.x,
                                      Center(b.rect(doc.children, parentElement)).y + b.scroll.y))
    {
      var rs := GetRotationAndScaleMatrix(parentElement, true, b);
      if ignoreScale && !ScalableColumns(rs, b.hypot) {
        return None;
      }
      var scaled := if ignoreScale then RemoveScale(rs, b.hypot).value else rs;
      var rotated := if ignoreRotation then RemoveRotation(scaled, b.hypot) else scaled;
      var rect := b.rect(doc.children, parentElement);
      m := Some(Multiply(TopPageOffset(rect, b.scroll), rotated));
      if ignoreScale && ignoreRotation && IsHypot(b.hypot) {
        CenterOfUntranslated(rs, rect, b.scroll, b.hypot);
      }
    }

    // ----- filling spaces -----

    /** createFillingSpace: a new detached div (its size, copied from the element, is not modelled). */
    method CreateFillingSpace(element: Node) returns (space: Node)
      requires Valid()
      modifies doc
      ensures Valid()
      ensures space == old(doc.nextId) && doc.nextId == space + 1
      ensures doc.children == old(doc.children)[space := []] && doc.parent == old(doc.parent)
      ensures doc.classes == old(doc.classes)[space := {}] && doc.log == old(doc.log)
    {
      space := doc.CreateElement();
    }

    /**
     * attachToElement: `toElement.insertBefore(element, insertBefore)`, or
     * `appendChild` without a reference; the DOM's errors propagate.
     */
    method AttachToElement(element: Node, toElement: Option<Node>, insertBefore: Option<Node>) returns (r: Outcome)
      requires Valid() && doc.Exists(element) && (toElement.Some? ==> doc.Exists(toElement.value))
      modifies doc
      ensures Valid()
      ensures doc.classes == old(doc.classes) && doc.nextId == old(doc.nextId) && doc.log == old(doc.log)
      ensures r.Pass? <==> InsertAllowed(old(doc.parent), old(doc.nextId), element, toElement, insertBefore)
      ensures toElement.None? ==> r == Fail(TypeError)
      ensures r.Fail? && toElement.Some? ==>
                r.error == (if element in InclusiveAncestors(old(doc.parent), toElement.value, old(doc.nextId))
                            then HierarchyRequestError else NotFoundError)
      ensures r.Fail? ==> doc.children == old(doc.children) && doc.parent == old(doc.parent)
      ensures r.Pass? ==> doc.parent == old(doc.parent)[element := toElement.value]
      ensures r.Pass? ==> doc.children == Moved(old(doc.children), old(doc.parent), element, toElement.value,
                                                 EffectiveReference(old(doc.children), old(doc.parent), element, insertBefore))
      ensures r.Pass? && insertBefore.None? ==>
                |doc.children[toElement.value]| > 0 && doc.children[toElement.value][|doc.children[toElement.value]| - 1] == element
      ensures r.Pass? && insertBefore.Some? && insertBefore.value != element ==>
                Adjacent(doc.children[toElement.value], element, insertBefore.value)
    {
      ghost var c0, p0 := doc.children, doc.parent;
      r := doc.InsertNode(element, toElement, insertBefore);
      if r.Pass? {
        MovedPlaces(c0, p0, element, toElement.value, EffectiveReference(c0, p0, element, insertBefore));
        if insertBefore.Some? && insertBefore.value != element {
          DetachedMembers(c0, p0, element, toElement.value, insertBefore.value);
        }
      }
    }

    /** addFixedSpace: a filling space with the space class, attached where asked. */
    method AddFixedSpace(element: Node, parent: Option<Node>, insertBefore: Option<Node>) returns (r: Result<Node>)
      requires Valid() && (parent.Some? ==> doc.Exists(parent.value)) && (insertBefore.Some? ==> doc.Exists(insertBefore.value))
      modifies doc
      ensures Valid() && doc.nextId == old(doc.nextId) + 1 && doc.log == old(doc.log)
      ensures doc.classes == old(doc.classes)[old(doc.nextId) := {SpaceClass}]
      ensures r.Ok? <==> AttachTargetValid(old(doc.parent), parent, insertBefore)
      ensures r.Err? ==> r.error == (if parent.None? then TypeError else NotFoundError)
      ensures r.Err? ==> doc.children == old(doc.children)[old(doc.nextId) := []] && doc.parent == old(doc.parent)
      ensures r.Ok? ==> r.value == old(doc.nextId) && doc.parent == old(doc.parent)[r.value := parent.value]
      ensures r.Ok? && insertBefore.None? ==>
                |doc.children[parent.value]| > 0 && doc.children[parent.value][|doc.children[parent.value]| - 1] == r.value
      ensures r.Ok? && insertBefore.Some? ==> Adjacent(doc.children[parent.value], r.value, insertBefore.value)
      ensures r.Ok? ==> doc.children == SpaceInserted(old(doc.children), r.value, parent.value, insertBefore)
    {
      assert forall c :: c in doc.parent ==> doc.parent[c] < doc.nextId;
      var space := NewDiv(element, SpaceClass);
      if parent.Some? {
        NotAParentNotAncestor(doc.parent, parent.value, space, doc.nextId);
      }
      var a := AttachToElement(space, parent, insertBefore);
      if a.Fail? {
        return Err(a.error);
      }
      r := Ok(space);
    }

    /** createFillingSpace followed by `classList.add(name)`: a new detached div with that one class. */
    method NewDiv(element: Node, name: string) returns (space: Node)
      requires Valid()
      modifies doc
      ensures Valid() && space == old(doc.nextId) && doc.nextId == space + 1 && doc.log == old(doc.log)
      ensures doc.children == old(doc.children)[space := []] && doc.parent == old(doc.parent)
      ensures doc.classes == old(doc.classes)[space := {name}]
    {
      space := CreateFillingSpace(element);
      ghost var k1 := doc.classes;
      doc.AddClass(space, name);
      assert k1[space] + {name} == {name};
    }

    /**
     * addAnimatedSpace: a fixed space with the kind's class whose size
     * animates from or to zero, timed by the settings over the surface
     * defaults.
     */
    method AddAnimatedSpace(element: Node, parent: Option<Node>, kind: SpaceType, settings: AnimationSettings,
                            insertBefore: Option<Node>) returns (r: Result<Node>)
      requires Valid() && (parent.Some? ==> doc.Exists(parent.value)) && (insertBefore.Some? ==> doc.Exists(insertBefore.value))
      modifies doc
      ensures Valid() && doc.nextId == old(doc.nextId) + 1
      ensures r.Ok? <==> AttachTargetValid(old(doc.parent), parent, insertBefore)
      ensures r.Err? ==> r.error == (if parent.None? then TypeError else NotFoundError) && doc.log == old(doc.log)
      ensures r.Ok? ==> r.value == old(doc.nextId) && doc.parent == old(doc.parent)[r.value := parent.value]
      ensures r.Ok? ==> doc.HasClass(r.value, SpaceClass) && doc.HasClass(r.value, SpaceKindClass(kind))
      ensures r.Ok? ==> doc.log == old(doc.log) + [Animated(r.value, SpaceKeyframes(kind), SurfaceTiming(settings))]
      ensures r.Ok? ==> doc.children == SpaceInserted(old(doc.children), r.value, parent.value, insertBefore)
      ensures doc.classes == old(doc.classes)[old(doc.nextId) := (if r.Ok? then {SpaceClass, SpaceKindClass(kind)} else {SpaceClass})]
    {
      r := AddFixedSpace(element, parent, insertBefore);
      if r.Err? {
        return;
      }
      ghost var k1 := doc.classes;
      doc.AddClass(r.value, SpaceKindClass(kind));
      assert k1[r.value] + {SpaceKindClass(kind)} == {SpaceClass, SpaceKindClass(kind)};
      doc.Animate(r.value, SpaceKeyframes(kind), SurfaceTiming(settings));
    }

    /**
     * addAnimatedSpaceIfNecessary: an animated space when the settings'
     * filling-space policy asks for this kind, otherwise nothing (null).
     */
    method AddAnimatedSpaceIfNecessary(element: Node, parent: Option<Node>, kind: SpaceType, settings: AnimationSettings,
                                       insertBefore: Option<Node>) returns (r: Result<Option<Node>>)
      requires Valid() && (parent.Some? ==> doc.Exists(parent.value)) && (insertBefore.Some? ==> doc.Exists(insertBefore.value))
      modifies doc
      ensures Valid()
      ensures !SpaceNeeded(settings, kind) ==>
                r == Ok(None) && doc.children == old(doc.children) && doc.parent == old(doc.parent) &&
                doc.classes == old(doc.classes) && doc.nextId == old(doc.nextId) && doc.log == old(doc.log)
      ensures SpaceNeeded(settings, kind) ==> doc.nextId == old(doc.nextId) + 1
      ensures SpaceNeeded(settings, kind) ==> (r.Ok? <==> AttachTargetValid(old(doc.parent), parent, insertBefore))
      ensures r.Err? ==> r.error == (if parent.None? then TypeError else NotFoundError) && doc.log == old(doc.log)
      ensures r.Ok? && SpaceNeeded(settings, kind) ==>
                r.value == Some(old(doc.nextId)) && doc.parent == old(doc.parent)[old(doc.nextId) := parent.value] &&
                doc.log == old(doc.log) + [Animated(old(doc.nextId), SpaceKeyframes(kind), SurfaceTiming(settings))]
      ensures r.Ok? && SpaceNeeded(settings, kind) ==>
                doc.children == SpaceInserted(old(doc.children), old(doc.nextId), parent.value, insertBefore) &&
                doc.classes == old(doc.classes)[old(doc.nextId) := {SpaceClass, SpaceKindClass(kind)}]
    {
      if SpaceNeeded(settings, kind) {
        var s := AddAnimatedSpace(element, parent, kind, settings, insertBefore);
        if s.Err? {
          return Err(s.error);
        }
        r := Ok(Some(s.value));
      } else {
        r := Ok(None);
      }
    }

    // ----- wrappers -----

    /** `w` heads a chain of layers down to `element`, every layer created since `w`. */
    ghost predicate Chained(w: Node, element: Node)
      reads doc
    {
      LayerChain(doc.children, doc.classes, w, element, w, doc.nextId) && w != element
    }

    /** `w` holds `element` alone, has the wrapper class and is the surface's last child. */
    ghost predicate WrapsOnSurface(element: Node, w: Node)
      reads doc
    {
      && w in doc.parent && doc.parent[w] == animationSurface
      && element in doc.parent && doc.parent[element] == w
      && w in doc.children && doc.children[w] == [element]
      && doc.HasClass(w, WrapperClass)
      && animationSurface in doc.children && |doc.children[animationSurface]| > 0
      && doc.children[animationSurface][|doc.children[animationSurface]| - 1] == w
    }

    /**
     * The step wrapOnAnimationSurface and addWrapperLayer share: a new div
     * (createFillingSpace) takes the element as its only child and gets the
     * wrapper class.
     */
    method NewWrapperAround(element: Node) returns (w: Node)
      requires Valid() && doc.Exists(element)
      modifies doc
      ensures Valid() && doc.log == old(doc.log)
      ensures w == old(doc.nextId) && doc.nextId == w + 1
      ensures doc.parent == old(doc.parent)[element := w]
      ensures doc.children == Detached(old(doc.children), old(doc.parent), element)[w := [element]]
      ensures doc.classes == old(doc.classes)[w := {WrapperClass}]
    {
      ghost var c0, p0 := doc.children, doc.parent;
      FreshNode(c0, p0, doc.nextId, doc.nextId + 1);
      MovedIntoFresh(c0, p0, element, doc.nextId);
      w := NewDiv(element, WrapperClass);
      var a := doc.InsertNode(element, Some(w), None);
      assert a.Pass?;
    }

    /**
     * wrapOnAnimationSurface: an element outside the document is first
     * appended to the surface; then a new wrapper takes the element and is
     * appended to the surface.
     */
    method WrapOnAnimationSurface(element: Node) returns (r: Result<Node>)
      requires Valid() && doc.Exists(element)
      modifies doc
      ensures Valid() && doc.log == old(doc.log) && doc.nextId >= old(doc.nextId)
      ensures r.Err? ==> r.error == HierarchyRequestError
      ensures r.Ok? ==> r.value == old(doc.nextId) && doc.nextId == r.value + 1 && WrapsOnSurface(element, r.value)
      ensures r.Ok? ==> doc.parent == old(doc.parent)[element := r.value][r.value := animationSurface]
      ensures r.Ok? ==> doc.classes == old(doc.classes)[r.value := {WrapperClass}]
      ensures r.Ok? ==> doc.children == Enclosed(old(doc.children), old(doc.parent), element, r.value, animationSurface)
      ensures r.Ok? && !IsLayer(doc.children, doc.classes, element) ==>
                Innermost(doc.children, doc.classes, r.value, doc.nextId) == element
      ensures r.Ok? && !old(doc.HasClass(element, WrapperClass)) ==> Chained(r.value, element)
    {
      var a := AppendIfDetached(element);
      if a.Fail? {
        return Err(a.error);
      }
      r := Enclose(element);
      if r.Ok? && !old(doc.HasClass(element, WrapperClass)) {
        WrapperChain(doc.children, doc.classes, r.value, element, doc.nextId);
      }
    }

    /** The first half of wrapOnAnimationSurface: an element outside the document is appended to the surface. */
    method AppendIfDetached(element: Node) returns (r: Outcome)
      requires Valid() && doc.Exists(element)
      modifies doc
      ensures Valid() && doc.log == old(doc.log) && doc.nextId == old(doc.nextId) && doc.classes == old(doc.classes)
      ensures r.Fail? ==> r.error == HierarchyRequestError
      ensures r.Pass? && !old(doc.Contains(element)) ==> doc.parent == old(doc.parent)[element := animationSurface]
      ensures old(doc.Contains(element)) ==> r.Pass? && doc.children == old(doc.children) && doc.parent == old(doc.parent)
      ensures r.Pass? ==>
                && doc.parent[element := doc.nextId] == old(doc.parent)[element := doc.nextId]
                && Enclosed(doc.children, doc.parent, element, doc.nextId, animationSurface) ==
                   Enclosed(old(doc.children), old(doc.parent), element, doc.nextId, animationSurface)
    {
      r := Pass;
      if !doc.Contains(element) {
        r := doc.InsertNode(element, Some(animationSurface), None);
        if r.Pass? {
          MovedThenEnclosed(old(doc.children), old(doc.parent), element, doc.nextId, animationSurface);
          OverwriteKey(old(doc.parent), element, animationSurface, doc.nextId);
        }
      }
    }

    /** The second half of wrapOnAnimationSurface: a new wrapper takes the element and is appended to the surface. */
    method Enclose(element: Node) returns (r: Result<Node>)
      requires Valid() && doc.Exists(element)
      modifies doc
      ensures Valid() && doc.log == old(doc.log) && doc.nextId >= old(doc.nextId)
      ensures r.Err? ==> r.error == HierarchyRequestError
      ensures r.Ok? ==> r.value == old(doc.nextId) && doc.nextId == r.value + 1 && WrapsOnSurface(element, r.value)
      ensures r.Ok? ==> doc.parent == old(doc.parent)[element := r.value][r.value := animationSurface]
      ensures r.Ok? ==> doc.classes == old(doc.classes)[r.value := {WrapperClass}]
      ensures r.Ok? ==> doc.children == Enclosed(old(doc.children), old(doc.parent), element, r.value, animationSurface)
      ensures r.Ok? && !IsLayer(doc.children, doc.classes, element) ==>
                Innermost(doc.children, doc.classes, r.value, doc.nextId) == element
    {
      var w: Node := NewWrapperAround(element);
      ghost var c1, p1 := doc.children, doc.parent;
      assert w !in p1 && animationSurface != w && c1[w] == [element];
      var c := doc.InsertNode(w, Some(animationSurface), None);
      if c.Fail? {
        return Err(c.error);
      }
      AppendedUnparented(c1, p1, w, animationSurface);
      assert doc.children == c1[animationSurface := c1[animationSurface] + [w]];
      assert doc.children[w] == [element];
      assert doc.parent == p1[w := animationSurface] && doc.parent[element] == w;
      assert doc.HasClass(w, WrapperClass);
      if !IsLayer(doc.children, doc.classes, element) {
        InnermostOfSingleLayer(doc.children, doc.classes, w, element, doc.nextId);
      }
      r := Ok(w);
    }

    /** getElementInWrapper: down the first children while the node is a wrapper with a child. */
    method GetElementInWrapper(wrapper: Node) returns (e: Node)
      requires Valid()
      ensures e == Innermost(doc.children, doc.classes, wrapper, doc.nextId)
    {
      e := wrapper;
      var fuel := doc.nextId;
      while fuel > 0 && doc.FirstChild(e).Some? && doc.HasClass(e, WrapperClass)
        invariant Innermost(doc.children, doc.classes, e, fuel) == Innermost(doc.children, doc.classes, wrapper, doc.nextId)
        decreases fuel
      {
        e := doc.FirstChild(e).value;
        fuel := fuel - 1;
      }
    }

    /**
     * addWrapperLayer: the innermost element of the wrapper moves into a
     * new wrapper, appended to the element's former parent.
     */
    method AddWrapperLayer(baseWrapper: Node) returns (r: Result<Node>)
      requires Valid() && doc.Exists(baseWrapper)
      modifies doc
      ensures Valid() && doc.log == old(doc.log) && doc.nextId == old(doc.nextId) + 1
      ensures doc.classes == old(doc.classes)[old(doc.nextId) := {WrapperClass}]
      ensures var e := Innermost(old(doc.children), old(doc.classes), baseWrapper, old(doc.nextId));
              e !in old(doc.parent) ==> r == Err(TypeError) && doc.parent == old(doc.parent)[e := old(doc.nextId)]
      ensures r.Err? ==> r.error == TypeError || r.error == HierarchyRequestError
      ensures var e := Innermost(old(doc.children), old(doc.classes), baseWrapper, old(doc.nextId));
              r.Ok? ==> e in old(doc.parent) && r.value == old(doc.nextId) &&
                        doc.parent == old(doc.parent)[e := r.value][r.value := old(doc.parent)[e]] &&
                        doc.children[r.value] == [e] &&
                        |doc.children[old(doc.parent)[e]]| > 0 &&
                        doc.children[old(doc.parent)[e]][|doc.children[old(doc.parent)[e]]| - 1] == r.value
      ensures var e := Innermost(old(doc.children), old(doc.classes), baseWrapper, old(doc.nextId));
              r.Ok? ==> old(doc.parent)[e] in old(doc.children) && doc.children == Layered(old(doc.children), old(doc.parent), e, r.value)
    {
      var element := GetElementInWrapper(baseWrapper);
      InnermostExists(doc.children, doc.parent, doc.classes, baseWrapper, doc.nextId, doc.nextId);
      var parent := ParentOf(doc.parent, element);
      var w: Node := NewWrapperAround(element);
      ghost var c1, p1 := doc.children, doc.parent;
      var c := doc.InsertNode(w, parent, None);
      if c.Fail? {
        return Err(c.error);
      }
      AppendedUnparented(c1, p1, w, parent.value);
      assert c1[parent.value] == Detached(old(doc.children), old(doc.parent), element)[parent.value];
      r := Ok(w);
    }
    // ----- surface animations -----

    /**
     * One parallel animation of animateOnAnimationSurface: its element is
     * the given one, else (by `applyTo`, default intermediate) the wrapper,
     * the innermost element, or a new wrapper layer; the animation runs on
     * that element's first child.
     */
    method StartParallelAnimation(wrapper: Node, entry: Option<ParallelAnimation>, timing: Timing)
      returns (r: Outcome, target: Node)
      requires Valid() && doc.Exists(wrapper)
      requires entry.Some? && entry.value.applyToElement.Some? ==> doc.Exists(entry.value.applyToElement.value)
      modifies doc
      ensures Valid() && doc.nextId >= old(doc.nextId)
      ensures r.Fail? ==> (r.error == TypeError || r.error == HierarchyRequestError) && doc.log == old(doc.log)
      ensures entry.None? ==> r == Fail(TypeError)
      ensures r.Pass? ==> entry.Some? && doc.log == old(doc.log) + [Animated(target, entry.value.keyframes, timing)]
      ensures AddsNoLayer(entry) ==>
                doc.children == old(doc.children) && doc.parent == old(doc.parent) &&
                doc.classes == old(doc.classes) && doc.nextId == old(doc.nextId)
      ensures AddsNoLayer(entry) ==>
                var inner := Innermost(old(doc.children), old(doc.classes), wrapper, old(doc.nextId));
                (r.Pass? <==> EntryAnimatable(entry, wrapper, inner, old(doc.children))) &&
                (r.Pass? ==> target == old(doc.children)[FixedTarget(entry.value, wrapper, inner)][0])
      ensures !AddsNoLayer(entry) && r.Pass? ==>
                var inner := Innermost(old(doc.children), old(doc.classes), wrapper, old(doc.nextId));
                var layer := old(doc.nextId);
                && target == inner && inner in old(doc.parent) && old(doc.parent)[inner] in old(doc.children)
                && doc.children == Layered(old(doc.children), old(doc.parent), inner, layer)
                && doc.parent == old(doc.parent)[inner := layer][layer := old(doc.parent)[inner]]
                && doc.classes == old(doc.classes)[layer := {WrapperClass}] && doc.nextId == layer + 1
    {
      target := wrapper;
      if entry.None? {
        return Fail(TypeError), target;
      }
      var animation := entry.value;
      var element: Node;
      if animation.applyToElement.Some? {
        element := animation.applyToElement.value;
      } else {
        var applyTo := if animation.applyTo.Some? then animation.applyTo.value else IntermediateTarget;
        if applyTo == WrapperTarget {
          element := wrapper;
        } else {
          element := GetElementInWrapper(wrapper);
        }
        if applyTo == IntermediateTarget {
          var layer := AddWrapperLayer(wrapper);
          if layer.Err? {
            return Fail(layer.error), target;
          }
          element := layer.value;
        }
      }
      var first := doc.FirstChild(element);
      if first.None? {
        return Fail(TypeError), target;
      }
      target := first.value;
      doc.Animate(target, animation.keyframes, timing);
      r := Pass;
    }

    /**
     * animateOnAnimationSurface: animates the wrapper from one matrix to the
     * other, then starts each parallel animation in order, all with the
     * surface timing. The first failing entry rejects the promise; the
     * animations already started keep running.
     */
    method AnimateOnAnimationSurface(wrapper: Node, fromMatrix: Option<Matrix>, toMatrix: Option<Matrix>,
                                     settings: AnimationSettings, ghost e: Node, ghost lo: nat) returns (r: Result<SurfaceResult>)
      requires Valid() && doc.Exists(wrapper) && NamedElementsExist(ParallelList(settings), doc.nextId)
      modifies doc
      ensures Valid() && doc.nextId >= old(doc.nextId)
      ensures r.Err? ==> r.error in {TypeError, HierarchyRequestError, InvalidStateError}
      ensures r.Err? ==> (r.error == InvalidStateError <==> fromMatrix.None? || toMatrix.None?)
      ensures fromMatrix.None? || toMatrix.None? ==>
                r == Err(InvalidStateError) && doc.log == old(doc.log) &&
                doc.children == old(doc.children) && doc.parent == old(doc.parent) &&
                doc.classes == old(doc.classes) && doc.nextId == old(doc.nextId)
      ensures |doc.log| >= |old(doc.log)| && doc.log[..|old(doc.log)|] == old(doc.log)
      ensures fromMatrix.Some? && toMatrix.Some? ==>
                |doc.log| > |old(doc.log)| &&
                doc.log[..|old(doc.log)| + 1] ==
                old(doc.log) + [Animated(wrapper, TransformKeyframes(fromMatrix, toMatrix), SurfaceTiming(settings))]
      ensures r.Ok? ==> r.value == SurfaceResult(wrapper, fromMatrix, toMatrix)
      ensures r.Ok? ==> |doc.log| == |old(doc.log)| + 1 + |ParallelList(settings)| &&
                        Started(doc.log[|old(doc.log)| + 1..], ParallelList(settings), SurfaceTiming(settings))
      ensures Unlayered(ParallelList(settings)) ==>
                doc.children == old(doc.children) && doc.parent == old(doc.parent) &&
                doc.classes == old(doc.classes) && doc.nextId == old(doc.nextId)
      ensures Unlayered(ParallelList(settings)) ==>
                var inner := Innermost(old(doc.children), old(doc.classes), wrapper, old(doc.nextId));
                (r.Ok? <==> fromMatrix.Some? && toMatrix.Some? &&
                            forall k :: 0 <= k < |ParallelList(settings)| ==>
                              EntryAnimatable(ParallelList(settings)[k], wrapper, inner, old(doc.children)))
      ensures Unlayered(ParallelList(settings)) && r.Ok? ==>
                var inner := Innermost(old(doc.children), old(doc.classes), wrapper, old(doc.nextId));
                StartedOn(doc.log[|old(doc.log)| + 1..], ParallelList(settings), wrapper, inner, old(doc.children))
      ensures r.Ok? && LayerChain(old(doc.children), old(doc.classes), wrapper, e, lo, old(doc.nextId)) && wrapper != e ==>
                && LayerChain(doc.children, doc.classes, wrapper, e, lo, doc.nextId)
                && ListsKept(old(doc.children), old(doc.classes), doc.children, lo)
                && ClassesKept(old(doc.classes), doc.classes)
                && StartedInChain(doc.log[|old(doc.log)| + 1..], ParallelList(settings), wrapper, e,
                                  old(doc.children), old(doc.classes), lo)
    {
      if fromMatrix.None? || toMatrix.None? {
        return Err(InvalidStateError);
      }
      var timing := SurfaceTiming(settings);
      doc.Animate(wrapper, TransformKeyframes(fromMatrix, toMatrix), timing);
      var list := ParallelList(settings);
      ghost var head := doc.log;
      ghost var events: seq<DomEvent> := [];
      ghost var inner := Innermost(doc.children, doc.classes, wrapper, doc.nextId);
      assert list[..0] == [];
      var i := 0;
      while i < |list|
        invariant ParallelStarted(list, i, wrapper, timing, head, events, inner, e, lo,
                                  old(doc.children), old(doc.parent), old(doc.classes), old(doc.nextId))
      {
        var outcome;
        outcome, events := StartNext(wrapper, list, i, timing, head, events, inner, e, lo,
                                     old(doc.children), old(doc.parent), old(doc.classes), old(doc.nextId));
        if outcome.Fail? {
          return Err(outcome.error);
        }
        i := i + 1;
      }
      assert list[..i] == list;
      assert doc.log[|old(doc.log)| + 1..] == events;
      r := Ok(SurfaceResult(wrapper, fromMatrix, toMatrix));
    }

    /** The loop state of animateOnAnimationSurface once the first `i` parallel animations started. */
    ghost predicate ParallelStarted(list: seq<Option<ParallelAnimation>>, i: nat, wrapper: Node, timing: Timing,
                                    head: seq<DomEvent>, events: seq<DomEvent>, inner: Node, e: Node, lo: nat,
                                    c0: map<Node, seq<Node>>, p0: map<Node, Node>, k0: map<Node, set<string>>, n0: nat)
      reads doc
    {
      && i <= |list| && Valid() && doc.Exists(wrapper) && doc.nextId >= n0
      && NamedElementsExist(list, doc.nextId)
      && doc.log == head + events && Started(events, list[..i], timing)
      && (Unlayered(list) ==> doc.children == c0 && doc.parent == p0 && doc.classes == k0 && doc.nextId == n0)
      && (Unlayered(list) ==> StartedOn(events, list[..i], wrapper, inner, c0))
      && (LayerChain(c0, k0, wrapper, e, lo, n0) && wrapper != e ==>
            && LayerChain(doc.children, doc.classes, wrapper, e, lo, doc.nextId)
            && ListsKept(c0, k0, doc.children, lo) && ClassesKept(k0, doc.classes)
            && StartedInChain(events, list[..i], wrapper, e, c0, k0, lo))
    }

    /** One iteration of animateOnAnimationSurface: the parallel animation at `i` starts, or the loop throws. */
    method StartNext(wrapper: Node, list: seq<Option<ParallelAnimation>>, i: nat, timing: Timing,
                     ghost head: seq<DomEvent>, ghost events: seq<DomEvent>, ghost inner: Node, ghost e: Node, ghost lo: nat,
                     ghost c0: map<Node, seq<Node>>, ghost p0: map<Node, Node>, ghost k0: map<Node, set<string>>, ghost n0: nat)
      returns (r: Outcome, ghost events': seq<DomEvent>)
      requires i < |list| && inner == Innermost(c0, k0, wrapper, n0)
      requires ParallelStarted(list, i, wrapper, timing, head, events, inner, e, lo, c0, p0, k0, n0)
      modifies doc
      ensures r.Pass? ==> ParallelStarted(list, i + 1, wrapper, timing, head, events', inner, e, lo, c0, p0, k0, n0)
      ensures r.Fail? ==>
                Valid() && doc.nextId >= n0 && (r.error == TypeError || r.error == HierarchyRequestError) &&
                doc.log == head + events
      ensures r.Fail? && Unlayered(list) ==>
                !EntryAnimatable(list[i], wrapper, inner, c0) &&
                doc.children == c0 && doc.parent == p0 && doc.classes == k0 && doc.nextId == n0
    {
      events' := events;
      ghost var c, p, k, n := doc.children, doc.parent, doc.classes, doc.nextId;
      ghost var chained := LayerChain(c0, k0, wrapper, e, lo, n0) && wrapper != e;
      if chained {
        ChainInnermost(c, k, wrapper, e, lo, n);
      }
      var target;
      r, target := StartParallelAnimation(wrapper, list[i], timing);
      if r.Pass? {
        events' := events + [Animated(target, list[i].value.keyframes, timing)];
        assert list[..i + 1] == list[..i] + [list[i]];
        if chained {
          StartKeepsChain(c, p, k, n, doc.children, doc.classes, doc.nextId, list[i], events'[|events|], events, list[..i],
                          wrapper, e, lo, c0, k0);
        }
      }
    }

    // ----- running animations -----

    /**
     * startSlideInAnimation: records where the element is, its matrix (the
     * destination) and the centre matrix of `fromElement` (the origin, the
     * element's own matrix without one), then wraps it on the surface.
     */
    method StartSlideIn(element: Node, fromElement: Option<Node>, fromIgnoreScale: bool, fromIgnoreRotation: bool,
                        preserveScale: bool, b: Browser) returns (r: Result<RunningAnimation>)
      requires Valid() && doc.Exists(element) && (fromElement.Some? ==> doc.Exists(fromElement.value))
      modifies doc
      ensures Valid() && doc.log == old(doc.log) && doc.nextId >= old(doc.nextId)
      ensures r.Err? ==> r.error == HierarchyRequestError
      ensures r.Ok? ==> r.value.wrapper == Some(old(doc.nextId)) && WrapsOnSurface(element, old(doc.nextId))
      ensures r.Ok? && !old(doc.HasClass(element, WrapperClass)) ==> Chained(old(doc.nextId), element)
      ensures r.Ok? ==>
                var toMatrix := FullMatrixOf(b, old(doc.children), old(doc.parent), old(doc.nextId), element);
                var other := if fromElement.Some? then Some(CenterMatrixOf(b, old(doc.children), old(doc.parent), old(doc.nextId),
                                                                          fromElement.value, fromIgnoreScale, fromIgnoreRotation))
                             else None;
                r.value == RunningAnimation(Some(element), r.value.wrapper, fromElement, None,
                                            ParentOf(old(doc.parent), element), old(doc.NextSibling(element)),
                                            OtherEndMatrix(toMatrix, other, preserveScale), Some(toMatrix),
                                            None, Some([r.value.wrapper]))
    {
      var toParent := ParentOf(doc.parent, element);
      var toNextSibling := doc.NextSibling(element);
      var toMatrix := GetFullMatrix(element, b);
      var fromMatrix := Some(toMatrix);
      if fromElement.Some? {
        fromMatrix := GetFullMatrixFromElementCenter(fromElement.value, fromIgnoreScale, fromIgnoreRotation, b);
      }
      if preserveScale {
        fromMatrix := ApplyMatrixScale(fromMatrix, toMatrix);
      }
      var wrapper := WrapOnAnimationSurface(element);
      if wrapper.Err? {
        return Err(wrapper.error);
      }
      r := Ok(RunningAnimation(Some(element), Some(wrapper.value), fromElement, None, toParent, toNextSibling,
                               fromMatrix, Some(toMatrix), None, Some([Some(wrapper.value)])));
    }

    /**
     * startSlideOutAnimation: records where the element is and its matrix
     * (the origin), the centre matrix of `toElement` (the destination, the
     * element's own matrix without one), then wraps it on the surface.
     */
    method StartSlideOut(element: Node, toElement: Option<Node>, fromIgnoreScale: bool, fromIgnoreRotation: bool,
                         preserveScale: bool, b: Browser) returns (r: Result<RunningAnimation>)
      requires Valid() && doc.Exists(element) && (toElement.Some? ==> doc.Exists(toElement.value))
      modifies doc
      ensures Valid() && doc.log == old(doc.log) && doc.nextId >= old(doc.nextId)
      ensures r.Err? ==> r.error == HierarchyRequestError
      ensures r.Ok? ==> r.value.wrapper == Some(old(doc.nextId)) && WrapsOnSurface(element, old(doc.nextId))
      ensures r.Ok? && !old(doc.HasClass(element, WrapperClass)) ==> Chained(old(doc.nextId), element)
      ensures r.Ok? ==>
                var fromMatrix := FullMatrixOf(b, old(doc.children), old(doc.parent), old(doc.nextId), element);
                var other := if toElement.Some? then Some(CenterMatrixOf(b, old(doc.children), old(doc.parent), old(doc.nextId),
                                                                        toElement.value, fromIgnoreScale, fromIgnoreRotation))
                             else None;
                r.value == RunningAnimation(Some(element), r.value.wrapper,
                                            ParentOf(old(doc.parent), element), old(doc.NextSibling(element)), toElement, None,
                                            Some(fromMatrix), OtherEndMatrix(fromMatrix, other, preserveScale),
                                            None, Some([r.value.wrapper]))
    {
      var fromParent := ParentOf(doc.parent, element);
      var fromNextSibling := doc.NextSibling(element);
      var fromMatrix := GetFullMatrix(element, b);
      var toMatrix := Some(fromMatrix);
      if toElement.Some? {
        toMatrix := GetFullMatrixFromElementCenter(toElement.value, fromIgnoreScale, fromIgnoreRotation, b);
      }
      if preserveScale {
        toMatrix := ApplyMatrixScale(toMatrix, fromMatrix);
      }
      var wrapper := WrapOnAnimationSurface(element);
      if wrapper.Err? {
        return Err(wrapper.error);
      }
      r := Ok(RunningAnimation(Some(element), Some(wrapper.value), fromParent, fromNextSibling, toElement, None,
                               Some(fromMatrix), toMatrix, None, Some([Some(wrapper.value)])));
    }

    /**
     * startAttachAnimation: records the origin and its matrix, attaches the
     * element to its destination, measures the destination matrix there,
     * then wraps the element on the surface.
     */
    method StartAttach(element: Node, toElement: Node, insertBefore: Option<Node>, b: Browser)
      returns (r: Result<RunningAnimation>)
      requires Valid() && doc.Exists(element) && doc.Exists(toElement)
      modifies doc
      ensures Valid() && doc.log == old(doc.log) && doc.nextId >= old(doc.nextId)
      ensures !InsertAllowed(old(doc.parent), old(doc.nextId), element, Some(toElement), insertBefore) ==>
                r.Err? && doc.children == old(doc.children) && doc.parent == old(doc.parent) && doc.nextId == old(doc.nextId)
      ensures r.Err? ==> r.error == HierarchyRequestError || r.error == NotFoundError
      ensures r.Ok? ==> r.value.wrapper == Some(old(doc.nextId)) && WrapsOnSurface(element, old(doc.nextId))
      ensures r.Ok? && !old(doc.HasClass(element, WrapperClass)) ==> Chained(old(doc.nextId), element)
      ensures r.Ok? ==>
                var attachedChildren := Moved(old(doc.children), old(doc.parent), element, toElement,
                                              EffectiveReference(old(doc.children), old(doc.parent), element, insertBefore));
                var attachedParent := old(doc.parent)[element := toElement];
                r.value == RunningAnimation(Some(element), r.value.wrapper,
                                            ParentOf(old(doc.parent), element), old(doc.NextSibling(element)),
                                            Some(toElement), insertBefore,
                                            Some(FullMatrixOf(b, old(doc.children), old(doc.parent), old(doc.nextId), element)),
                                            Some(FullMatrixOf(b, attachedChildren, attachedParent, old(doc.nextId), element)),
                                            None, Some([r.value.wrapper]))
      ensures r.Ok? ==>
                && doc.nextId == old(doc.nextId) + 1
                && doc.parent == old(doc.parent)[element := toElement][element := old(doc.nextId)][old(doc.nextId) := animationSurface]
                && doc.children == AttachedEnclosed(old(doc.children), old(doc.parent), element, toElement, insertBefore,
                                                    old(doc.nextId), animationSurface)
    {
      var fromParent := ParentOf(doc.parent, element);
      var fromNextSibling := doc.NextSibling(element);
      var fromMatrix := GetFullMatrix(element, b);
      var attached := AttachToElement(element, Some(toElement), insertBefore);
      if attached.Fail? {
        return Err(attached.error);
      }
      var toMatrix := GetFullMatrix(element, b);
      var wrapper := WrapOnAnimationSurface(element);
      if wrapper.Err? {
        return Err(wrapper.error);
      }
      r := Ok(RunningAnimation(Some(element), Some(wrapper.value), fromParent, fromNextSibling, Some(toElement), insertBefore,
                               Some(fromMatrix), Some(toMatrix), None, Some([Some(wrapper.value)])));
    }

    /** `w?.remove()`. A node placed before `ref` in the list of `p` stays so, unless it or `ref` is removed. */
    method RemoveIfSet(w: Option<Node>, ghost p: Node, ghost x: Node, ghost ref: Option<Node>, ghost skip: set<Node>)
      requires Valid() && (w.Some? ==> doc.Exists(w.value))
      modifies doc
      ensures Valid() && doc.classes == old(doc.classes) && doc.nextId == old(doc.nextId)
      ensures doc.parent == old(doc.parent) - (if w.Some? then {w.value} else {})
      ensures doc.children == (if w.Some? then Detached(old(doc.children), old(doc.parent), w.value) else old(doc.children))
      ensures doc.log == old(doc.log) + (if w.Some? then [Removed(w.value)] else [])
      ensures p in old(doc.children) && PlacedBefore(old(doc.children)[p], x, ref, skip) && (w.Some? ==> w.value != x && ref != w) ==>
                p in doc.children && PlacedBefore(doc.children[p], x, ref, skip)
    {
      if w.Some? {
        if p in doc.children && PlacedBefore(doc.children[p], x, ref, skip) && w.value != x && ref != w {
          DetachedPlaced(doc.children, doc.parent, w.value, p, x, ref, skip);
        }
        doc.Remove(w.value);
      } else {
        assert doc.parent - {} == doc.parent;
        assert doc.log + [] == doc.log;
      }
    }

    /**
     * `list.forEach(w => w?.remove())`: removes every listed node, in list
     * order. A child `x` of `p` placed before `ref` with only listed nodes
     * between them ends up right before `ref` (last, for a null `ref`),
     * unless it or `ref` is listed.
     */
    method RemoveAll(ws: seq<Option<Node>>, ghost p: Node, ghost x: Node, ghost ref: Option<Node>)
      requires Valid() && forall k :: 0 <= k < |ws| && ws[k].Some? ==> doc.Exists(ws[k].value)
      modifies doc
      ensures Valid() && doc.classes == old(doc.classes) && doc.nextId == old(doc.nextId)
      ensures doc.parent == old(doc.parent) - RemovedNodes(ws) && doc.log == old(doc.log) + Removals(ws)
      ensures p in old(doc.children) && PlacedBefore(old(doc.children)[p], x, ref, RemovedNodes(ws)) &&
              x !in RemovedNodes(ws) && (ref.Some? ==> ref.value !in RemovedNodes(ws)) ==>
                p in doc.children && RightBefore(doc.children[p], x, ref)
    {
      ghost var placed := p in doc.children && PlacedBefore(doc.children[p], x, ref, RemovedNodes(ws)) &&
                          x !in RemovedNodes(ws) && (ref.Some? ==> ref.value !in RemovedNodes(ws));
      assert ws[..0] == [];
      for i := 0 to |ws|
        invariant RemovedUpTo(ws, i, old(doc.parent), old(doc.log), old(doc.classes), old(doc.nextId), placed, p, x, ref)
      {
        RemoveNext(ws, i, old(doc.parent), old(doc.log), old(doc.classes), old(doc.nextId), placed, p, x, ref);
      }
      assert ws[..|ws|] == ws;
      if placed {
        PlacedSettled(doc.children, doc.parent, p, x, ref, RemovedNodes(ws));
      }
    }

    /** The state after removing the entries of `ws` before `i`. */
    ghost predicate RemovedUpTo(ws: seq<Option<Node>>, i: nat, parent0: map<Node, Node>, log0: seq<DomEvent>,
                                classes0: map<Node, set<string>>, nextId0: nat, placed: bool, p: Node, x: Node, ref: Option<Node>)
      reads doc
    {
      && i <= |ws| && Valid() && doc.classes == classes0 && doc.nextId == nextId0
      && doc.parent == parent0 - RemovedNodes(ws[..i]) && doc.log == log0 + Removals(ws[..i])
      && (placed ==> p in doc.children && PlacedBefore(doc.children[p], x, ref, RemovedNodes(ws)))
    }

    /** One iteration of RemoveAll: the entry at `i` is removed when set. */
    method RemoveNext(ws: seq<Option<Node>>, i: nat, ghost parent0: map<Node, Node>, ghost log0: seq<DomEvent>,
                      ghost classes0: map<Node, set<string>>, ghost nextId0: nat,
                      ghost placed: bool, ghost p: Node, ghost x: Node, ghost ref: Option<Node>)
      requires i < |ws| && (ws[i].Some? ==> doc.Exists(ws[i].value))
      requires RemovedUpTo(ws, i, parent0, log0, classes0, nextId0, placed, p, x, ref)
      requires placed ==> x !in RemovedNodes(ws) && (ref.Some? ==> ref.value !in RemovedNodes(ws))
      modifies doc
      ensures RemovedUpTo(ws, i + 1, parent0, log0, classes0, nextId0, placed, p, x, ref)
    {
      LogStep(log0, ws, i);
      ParentStep(parent0, ws, i);
      if ws[i].Some? {
        RemovedAt(ws, i);
      }
      RemoveIfSet(ws[i], p, x, ref, RemovedNodes(ws));
    }

    /**
     * endRunningAnimation: attaches the element to its destination, before
     * the destination's filling space if there is one, else before the
     * recorded next sibling; then removes every wrapper to remove.
     */
    method EndRunningAnimation(ra: RunningAnimation) returns (r: Outcome)
      requires Valid() && RecordExists(ra, doc.nextId)
      modifies doc
      ensures Valid() && doc.classes == old(doc.classes) && doc.nextId == old(doc.nextId)
      ensures var ref := if ra.toSpaceWrapper.Some? then ra.toSpaceWrapper else ra.toNextSibling;
              r.Fail? <==> ra.element.Some? && !InsertAllowed(old(doc.parent), old(doc.nextId), ra.element.value, ra.toParent, ref)
      ensures r.Fail? ==> doc.children == old(doc.children) && doc.parent == old(doc.parent) && doc.log == old(doc.log)
      ensures r.Pass? && ra.element.Some? ==> ra.toParent.Some?
      ensures r.Pass? ==> doc.log == old(doc.log) + Removals(WrappersToRemove(ra))
      ensures r.Pass? ==>
                doc.parent == (if ra.element.Some? && ra.toParent.Some? then old(doc.parent)[ra.element.value := ra.toParent.value]
                               else old(doc.parent)) - RemovedNodes(WrappersToRemove(ra))
      ensures var ref := if ra.toSpaceWrapper.Some? then ra.toSpaceWrapper else ra.toNextSibling;
              r.Pass? && ra.element.Some? && ra.toParent.Some? && ref != ra.element &&
              ra.element.value !in RemovedNodes(WrappersToRemove(ra)) && (ref.Some? ==> ref.value !in RemovedNodes(WrappersToRemove(ra))) ==>
                RightBefore(doc.children[ra.toParent.value], ra.element.value, ref)
    {
      var ref := if ra.toSpaceWrapper.Some? then ra.toSpaceWrapper else ra.toNextSibling;
      if ra.element.Some? {
        var attached := AttachToElement(ra.element.value, ra.toParent, ref);
        if attached.Fail? {
          return attached;
        }
        if ref != ra.element {
          RightBeforePlaced(doc.children[ra.toParent.value], ra.element.value, ref, RemovedNodes(WrappersToRemove(ra)));
        }
      }
      RemoveAll(WrappersToRemove(ra), if ra.toParent.Some? then ra.toParent.value else 0,
                if ra.element.Some? then ra.element.value else 0, ref);
      r := Pass;
    }
  }
}
