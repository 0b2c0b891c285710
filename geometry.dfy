/**
 * 2D affine geometry of the animation engine: the six-coefficient DOMMatrix
 * (layout of the W3C Geometry Interfaces Module Level 1: x' = a*x + c*y + e,
 * y' = b*x + d*y + f), its product, the per-element rotation/scale matrix,
 * the ancestor-chain product, the page-offset prefix and the three
 * projections that strip scale, rotation or translation.
 *
 * `Math.hypot` is a parameter `hypot`; the lemmas that need its meaning ask
 * for `IsHypot(hypot)`. A column of length zero makes the source divide by
 * zero and produce NaN/Infinity coefficients; the model returns `None` there.
 */
module Geometry {
  import opened JsValues

  datatype Matrix = Matrix(a: real, b: real, c: real, d: real, e: real, f: real)

  datatype Point = Point(x: real, y: real)

  /** A bounding client rectangle (`right = left + width`, `bottom = top + height`). */
  datatype Rect = Rect(left: real, top: real, width: real, height: real) {
    function Right(): real { left + width }
    function Bottom(): real { top + height }
  }

  /** A rotation by some angle, given by its cosine and sine (the source's `rotateSelf(0, 0, angle)`). */
  datatype Rotation = Rotation(cos: real, sin: real)

  /**
   * The parts of an element's computed style the geometry reads:
   * `transform` (None: "none"), `rotate` (None: "none") and the
   * non-standard `zoom` (None: empty, hence falsy).
   */
  datatype ElementStyle = ElementStyle(transform: Option<Matrix>, rotate: Option<Rotation>, zoom: Option<real>)

  /** `new DOMMatrix()`. */
  const Identity := Matrix(1.0, 0.0, 0.0, 1.0, 0.0, 0.0)

  /** Where the matrix sends a point. */
  function Apply(m: Matrix, p: Point): Point {
    Point(m.a * p.x + m.c * p.y + m.e, m.b * p.x + m.d * p.y + m.f)
  }

  /** `new DOMMatrix().translateSelf(x, y)`. */
  function Translation(x: real, y: real): (r: Matrix)
    ensures forall p {:trigger Apply(r, p)} :: Apply(r, p) == Point(p.x + x, p.y + y)
  {
    Matrix(1.0, 0.0, 0.0, 1.0, x, y)
  }

  /** `new DOMMatrix().scaleSelf(z, z)`. */
  function Scaling(z: real): (r: Matrix)
    ensures forall p {:trigger Apply(r, p)} :: Apply(r, p) == Point(z * p.x, z * p.y)
  {
    Matrix(z, 0.0, 0.0, z, 0.0, 0.0)
  }

  /** `new DOMMatrix().rotateSelf(0, 0, angle)`. */
  function RotationMatrix(rot: Rotation): (r: Matrix)
    ensures forall p {:trigger Apply(r, p)} :: Apply(r, p) == Point(rot.cos * p.x - rot.sin * p.y, rot.sin * p.x + rot.cos * p.y)
  {
    Matrix(rot.cos, rot.sin, -rot.sin, rot.cos, 0.0, 0.0)
  }

  /** `m.multiply(n)`: the matrix that applies `n` first, then `m`. */
  function Multiply(m: Matrix, n: Matrix): (r: Matrix)
    ensures forall p {:trigger Apply(r, p)} :: Apply(r, p) == Apply(m, Apply(n, p))
  {
    Matrix(m.a * n.a + m.c * n.b,
           m.b * n.a + m.d * n.b,
           m.a * n.c + m.c * n.d,
           m.b * n.c + m.d * n.d,
           m.a * n.e + m.c * n.f + m.e,
           m.b * n.e + m.d * n.f + m.f)
  }

  predicate ZeroTranslation(m: Matrix) {
    m.e == 0.0 && m.f == 0.0
  }

  /** True when the two matrices agree on their rotation/scale/skew part a..d. */
  predicate SameLinearPart(m: Matrix, n: Matrix) {
    m.a == n.a && m.b == n.b && m.c == n.c && m.d == n.d
  }

  /** Two matrices that move the origin and both unit points alike are equal. */
  lemma EqualByApply(m: Matrix, n: Matrix)
    requires Apply(m, Point(0.0, 0.0)) == Apply(n, Point(0.0, 0.0))
    requires Apply(m, Point(1.0, 0.0)) == Apply(n, Point(1.0, 0.0))
    requires Apply(m, Point(0.0, 1.0)) == Apply(n, Point(0.0, 1.0))
    ensures m == n
  {
  }

  lemma MultiplyIdentity(m: Matrix)
    ensures Multiply(Identity, m) == m && Multiply(m, Identity) == m
  {
  }

  /** The matrix product is associative. */
  lemma MultiplyAssociative(m: Matrix, n: Matrix, o: Matrix)
    ensures Multiply(Multiply(m, n), o) == Multiply(m, Multiply(n, o))
  {
    var left, right := Multiply(Multiply(m, n), o), Multiply(m, Multiply(n, o));
    forall p: Point ensures Apply(left, p) == Apply(right, p) {
      calc {
        Apply(left, p);
        Apply(Multiply(m, n), Apply(o, p));
        Apply(m, Apply(n, Apply(o, p)));
        Apply(m, Apply(Multiply(n, o), p));
        Apply(right, p);
      }
    }
    EqualByApply(left, right);
  }

  /** A product of two matrices without translation has no translation. */
  lemma MultiplyZeroTranslation(m: Matrix, n: Matrix)
    requires ZeroTranslation(m) && ZeroTranslation(n)
    ensures ZeroTranslation(Multiply(m, n))
  {
  }

  /**
   * The rotation and scale one element contributes relative to its parent
   * (base-animation-manager.ts getRotationAndScaleMatrixForElement):
   * zoom * transform-without-translation * rotate.
   */
  function RotationAndScaleMatrixForElement(style: ElementStyle): (r: Matrix)
    ensures ZeroTranslation(r)
    ensures style == ElementStyle(None, None, None) ==> r == Identity
    ensures style.rotate.None? && style.zoom.None? && style.transform.Some? ==>
              SameLinearPart(r, style.transform.value)
  {
    var transform := style.transform.GetOr(Identity).(e := 0.0, f := 0.0);
    var rotate := if style.rotate.Some? then RotationMatrix(style.rotate.value) else Identity;
    var zoom := Scaling(style.zoom.GetOr(1.0));
    MultiplyZeroTranslation(zoom, transform);
    MultiplyZeroTranslation(Multiply(zoom, transform), rotate);
    MultiplyIdentity(transform);
    Multiply(Multiply(zoom, transform), rotate)
  }

  /**
   * The product accumulated by getRotationAndScaleMatrix's loop over the
   * chain of per-element matrices, nearest element first: each step
   * left-multiplies, so the result is ms[|ms|-1] * ... * ms[0].
   */
  function ChainProduct(ms: seq<Matrix>): Matrix
  {
    if |ms| == 0 then Identity else Multiply(ms[|ms| - 1], ChainProduct(ms[..|ms| - 1]))
  }

  /** Applies the matrices of a chain to a point, nearest element first. */
  function ApplyChain(ms: seq<Matrix>, p: Point): Point
  {
    if |ms| == 0 then p else ApplyChain(ms[1..], Apply(ms[0], p))
  }

  /**
   * The chain product maps a point as applying the nearest element's matrix
   * first and the outermost ancestor's last.
   */
  lemma {:induction false} ChainProductApplies(ms: seq<Matrix>, p: Point)
    ensures Apply(ChainProduct(ms), p) == ApplyChain(ms, p)
  {
    if |ms| > 0 {
      ChainProductFirst(ms);
      ChainProductApplies(ms[1..], Apply(ms[0], p));
    }
  }

  /** Peeling the nearest element off the chain: the product ends with ms[0] on the right. */
  lemma {:induction false} ChainProductFirst(ms: seq<Matrix>)
    requires |ms| > 0
    ensures ChainProduct(ms) == Multiply(ChainProduct(ms[1..]), ms[0])
  {
    if |ms| == 1 {
      assert ms[..0] == [] && ms[1..] == [];
      MultiplyIdentity(ms[0]);
    } else {
      var n := |ms|;
      var init := ms[..n - 1];
      assert init[1..] == ms[1..][..|ms[1..]| - 1];
      assert ms[1..][|ms[1..]| - 1] == ms[n - 1];
      ChainProductFirst(init);
      assert init[0] == ms[0];
      calc {
        ChainProduct(ms);
        Multiply(ms[n - 1], ChainProduct(init));
        Multiply(ms[n - 1], Multiply(ChainProduct(init[1..]), ms[0]));
        { MultiplyAssociative(ms[n - 1], ChainProduct(init[1..]), ms[0]); }
        Multiply(Multiply(ms[n - 1], ChainProduct(init[1..])), ms[0]);
        Multiply(ChainProduct(ms[1..]), ms[0]);
      }
    }
  }

  /** Every per-element matrix has zero translation, so the chain product has none either. */
  lemma {:induction false} ChainProductZeroTranslation(ms: seq<Matrix>)
    requires forall i :: 0 <= i < |ms| ==> ZeroTranslation(ms[i])
    ensures ZeroTranslation(ChainProduct(ms))
  {
    if |ms| > 0 {
      ChainProductZeroTranslation(ms[..|ms| - 1]);
      MultiplyZeroTranslation(ms[|ms| - 1], ChainProduct(ms[..|ms| - 1]));
    }
  }

  /** The per-element matrices of a chain of computed styles, nearest element first. */
  function StyleMatrices(styles: seq<ElementStyle>): (ms: seq<Matrix>)
    ensures |ms| == |styles|
    ensures forall i :: 0 <= i < |ms| ==> ms[i] == RotationAndScaleMatrixForElement(styles[i])
  {
    if |styles| == 0 then [] else [RotationAndScaleMatrixForElement(styles[0])] + StyleMatrices(styles[1..])
  }

  /** The chain product of any chain of computed styles has zero translation. */
  lemma StyleChainZeroTranslation(styles: seq<ElementStyle>)
    ensures ZeroTranslation(ChainProduct(StyleMatrices(styles)))
  {
    ChainProductZeroTranslation(StyleMatrices(styles));
  }

  /** The centre of a rectangle. */
  function Center(rect: Rect): Point {
    Point(rect.left + rect.width / 2.0, rect.top + rect.height / 2.0)
  }

  /**
   * getTopPageOffset: a translation to the centre of the element's bounding
   * rectangle, in page coordinates (viewport position plus scroll).
   */
  function TopPageOffset(rect: Rect, scroll: Point): (r: Matrix)
    ensures Apply(r, Point(0.0, 0.0)) == Point(Center(rect).x + scroll.x, Center(rect).y + scroll.y)
    ensures SameLinearPart(r, Identity)
  {
    Translation(rect.left + rect.width / 2.0 + scroll.x, rect.top + rect.height / 2.0 + scroll.y)
  }

  lemma TopPageOffsetIsTranslation(rect: Rect, scroll: Point)
    ensures TopPageOffset(rect, scroll) == Translation(Center(rect).x + scroll.x, Center(rect).y + scroll.y)
  {
  }

  /** getFullMatrix: the page-offset translation prefixed to the rotation/scale chain product. */
  function FullMatrix(rect: Rect, scroll: Point, rotationAndScale: Matrix): (r: Matrix)
    ensures SameLinearPart(r, rotationAndScale)
    ensures r.e == Center(rect).x + scroll.x + rotationAndScale.e
    ensures r.f == Center(rect).y + scroll.y + rotationAndScale.f
  {
    Multiply(TopPageOffset(rect, scroll), rotationAndScale)
  }

  /**
   * getFullMatrix over a chain of computed styles: it keeps the rotation and
   * scale of the chain and, since the chain has no translation, translates
   * exactly to the page-space centre of the element.
   */
  lemma FullMatrixParts(rect: Rect, scroll: Point, styles: seq<ElementStyle>)
    ensures var rs := ChainProduct(StyleMatrices(styles));
            var m := FullMatrix(rect, scroll, rs);
            SameLinearPart(m, rs) &&
            m.e == Center(rect).x + scroll.x && m.f == Center(rect).y + scroll.y
  {
    StyleChainZeroTranslation(styles);
  }

  /** `Math.hypot` on two arguments: non-negative, and its square is the sum of squares. */
  ghost predicate IsHypot(hypot: (real, real) -> real) {
    forall x, y :: hypot(x, y) >= 0.0 && hypot(x, y) * hypot(x, y) == x * x + y * y
  }

  /** True when the source's division by the column lengths in removeScaleFromMatrix stays finite. */
  predicate ScalableColumns(m: Matrix, hypot: (real, real) -> real) {
    hypot(m.a, m.b) != 0.0 && hypot(m.c, m.d) != 0.0
  }

  /**
   * removeScaleFromMatrix: divides each column by its length; None when a
   * length is zero (the source then yields NaN/Infinity coefficients).
   */
  function RemoveScale(m: Matrix, hypot: (real, real) -> real): (r: Option<Matrix>)
    ensures r.Some? <==> ScalableColumns(m, hypot)
    ensures r.Some? ==> r.value.e == m.e && r.value.f == m.f
    ensures r.Some? ==> r.value.a * hypot(m.a, m.b) == m.a && r.value.b * hypot(m.a, m.b) == m.b
    ensures r.Some? ==> r.value.c * hypot(m.c, m.d) == m.c && r.value.d * hypot(m.c, m.d) == m.d
  {
    var scaleX, scaleY := hypot(m.a, m.b), hypot(m.c, m.d);
    if scaleX == 0.0 || scaleY == 0.0 then None
    else Some(Matrix(m.a / scaleX, m.b / scaleX, m.c / scaleY, m.d / scaleY, m.e, m.f))
  }

  /** removeRotationFromMatrix: an axis-aligned scale of the column lengths, translation kept. */
  function RemoveRotation(m: Matrix, hypot: (real, real) -> real): (r: Matrix)
    ensures r.b == 0.0 && r.c == 0.0
    ensures r.e == m.e && r.f == m.f
    ensures r.a == hypot(m.a, m.b) && r.d == hypot(m.c, m.d)
  {
    Matrix(hypot(m.a, m.b), 0.0, 0.0, hypot(m.c, m.d), m.e, m.f)
  }

  /** removeTranslationFromMatrix: keeps a..d, zeroes e and f. */
  function RemoveTranslation(m: Matrix): (r: Matrix)
    ensures ZeroTranslation(r) && SameLinearPart(r, m)
    ensures Multiply(Translation(m.e, m.f), r) == m
  {
    Matrix(m.a, m.b, m.c, m.d, 0.0, 0.0)
  }

  /** Non-negative square roots that have the same square are equal. */
  lemma SquareRootUnique(p: real, q: real)
    requires p >= 0.0 && q >= 0.0 && p * p == q * q
    ensures p == q
  {
    assert (p - q) * (p + q) == 0.0;
    if p + q != 0.0 {
      assert p - q == 0.0;
    }
  }

  /** After removeScaleFromMatrix both columns have unit length. */
  lemma RemoveScaleUnitColumns(m: Matrix, hypot: (real, real) -> real)
    requires IsHypot(hypot) && ScalableColumns(m, hypot)
    ensures var r := RemoveScale(m, hypot).value;
            r.a * r.a + r.b * r.b == 1.0 && r.c * r.c + r.d * r.d == 1.0
  {
    var r := RemoveScale(m, hypot).value;
    var sx, sy := hypot(m.a, m.b), hypot(m.c, m.d);
    UnitAfterDivision(m.a, m.b, sx, r.a, r.b);
    UnitAfterDivision(m.c, m.d, sy, r.c, r.d);
  }

  /** (x/s, y/s) has unit length when s is the non-zero length of (x, y). */
  lemma UnitAfterDivision(x: real, y: real, s: real, u: real, v: real)
    requires s != 0.0 && s * s == x * x + y * y
    requires u * s == x && v * s == y
    ensures u * u + v * v == 1.0
  {
    calc {
      (u * u + v * v) * (s * s);
      (u * s) * (u * s) + (v * s) * (v * s);
      x * x + y * y;
      s * s;
    }
    assert (u * u + v * v - 1.0) * (s * s) == 0.0;
  }

  /**
   * Removing scale and rotation, in either order, leaves the pure
   * translation (e, f) of the original matrix.
   */
  lemma RemoveScaleAndRotationCommute(m: Matrix, hypot: (real, real) -> real)
    requires IsHypot(hypot) && ScalableColumns(m, hypot)
    ensures RemoveScale(RemoveRotation(m, hypot), hypot) == Some(Translation(m.e, m.f))
    ensures RemoveRotation(RemoveScale(m, hypot).value, hypot) == Translation(m.e, m.f)
  {
    var sx, sy := hypot(m.a, m.b), hypot(m.c, m.d);
    // removeRotation then removeScale: the columns are (sx, 0) and (0, sy)
    var q := RemoveRotation(m, hypot);
    assert q == Matrix(sx, 0.0, 0.0, sy, m.e, m.f);
    assert hypot(sx, 0.0) * hypot(sx, 0.0) == sx * sx + 0.0 * 0.0;
    SquareRootUnique(hypot(sx, 0.0), sx);
    assert hypot(0.0, sy) * hypot(0.0, sy) == 0.0 * 0.0 + sy * sy;
    SquareRootUnique(hypot(0.0, sy), sy);
    assert hypot(q.a, q.b) == sx && hypot(q.c, q.d) == sy;
    assert sx / sx == 1.0 && sy / sy == 1.0 && 0.0 / sx == 0.0 && 0.0 / sy == 0.0;
    assert RemoveScale(q, hypot) == Some(Matrix(sx / sx, 0.0 / sx, 0.0 / sy, sy / sy, m.e, m.f));
    // removeScale then removeRotation: the columns have unit length
    var n := RemoveScale(m, hypot).value;
    RemoveScaleUnitColumns(m, hypot);
    assert hypot(n.a, n.b) * hypot(n.a, n.b) == 1.0 * 1.0;
    SquareRootUnique(hypot(n.a, n.b), 1.0);
    assert hypot(n.c, n.d) * hypot(n.c, n.d) == 1.0 * 1.0;
    SquareRootUnique(hypot(n.c, n.d), 1.0);
  }

  /**
   * getFullMatrixFromElementCenter with the rotation/scale chain `rs` of the
   * element (itself included): optionally strips scale, then rotation, and
   * prefixes a translation to the element's page-space centre. None when the
   * scale removal divides by zero.
   */
  function FullMatrixFromElementCenter(rs: Matrix, rect: Rect, scroll: Point, ignoreScale: bool,
                                       ignoreRotation: bool, hypot: (real, real) -> real): (r: Option<Matrix>)
    ensures r.None? <==> ignoreScale && !ScalableColumns(rs, hypot)
    ensures r.Some? && ignoreRotation ==> r.value.b == 0.0 && r.value.c == 0.0
    ensures r.Some? && !ignoreScale && !ignoreRotation ==> r.value == FullMatrix(rect, scroll, rs)
    ensures r.Some? ==> r.value.e == Center(rect).x + scroll.x + rs.e && r.value.f == Center(rect).y + scroll.y + rs.f
    ensures r.Some? && ignoreScale && !ignoreRotation ==>
              && r.value.a * hypot(rs.a, rs.b) == rs.a && r.value.b * hypot(rs.a, rs.b) == rs.b
              && r.value.c * hypot(rs.c, rs.d) == rs.c && r.value.d * hypot(rs.c, rs.d) == rs.d
    ensures r.Some? && !ignoreScale && ignoreRotation ==> r.value.a == hypot(rs.a, rs.b) && r.value.d == hypot(rs.c, rs.d)
  {
    var scaled := if ignoreScale then RemoveScale(rs, hypot) else Some(rs);
    if scaled.None? then None
    else
      var m := if ignoreRotation then RemoveRotation(scaled.value, hypot) else scaled.value;
      Some(Multiply(TopPageOffset(rect, scroll), m))
  }

  /**
   * Ignoring both scale and rotation of a chain without translation gives
   * the pure translation to the element's page-space centre.
   */
  lemma CenterMatrixIsPureTranslation(styles: seq<ElementStyle>, rect: Rect, scroll: Point,
                                      hypot: (real, real) -> real)
    requires IsHypot(hypot)
    requires ScalableColumns(ChainProduct(StyleMatrices(styles)), hypot)
    ensures FullMatrixFromElementCenter(ChainProduct(StyleMatrices(styles)), rect, scroll, true, true, hypot)
            == Some(Translation(Center(rect).x + scroll.x, Center(rect).y + scroll.y))
  {
    StyleChainZeroTranslation(styles);
    CenterOfUntranslated(ChainProduct(StyleMatrices(styles)), rect, scroll, hypot);
  }

  /**
   * With an exact hypotenuse, ignoring the scale but keeping the rotation
   * leaves two unit-length columns.
   */
  lemma CenterMatrixUnitColumns(rs: Matrix, rect: Rect, scroll: Point, hypot: (real, real) -> real)
    requires IsHypot(hypot) && ScalableColumns(rs, hypot)
    ensures var r := FullMatrixFromElementCenter(rs, rect, scroll, true, false, hypot);
            r.Some? && r.value.a * r.value.a + r.value.b * r.value.b == 1.0 &&
            r.value.c * r.value.c + r.value.d * r.value.d == 1.0
  {
    RemoveScaleUnitColumns(rs, hypot);
  }

  lemma CenterOfUntranslated(rs: Matrix, rect: Rect, scroll: Point, hypot: (real, real) -> real)
    requires IsHypot(hypot) && ScalableColumns(rs, hypot) && ZeroTranslation(rs)
    ensures FullMatrixFromElementCenter(rs, rect, scroll, true, true, hypot)
            == Some(Translation(Center(rect).x + scroll.x, Center(rect).y + scroll.y))
  {
    RemoveScaleAndRotationCommute(rs, hypot);
    var scaled := RemoveScale(rs, hypot);
    var m := RemoveRotation(scaled.value, hypot);
    assert m == Translation(0.0, 0.0) == Identity;
    var t := TopPageOffset(rect, scroll);
    TopPageOffsetIsTranslation(rect, scroll);
    MultiplyIdentity(t);
    assert Multiply(t, m) == t;
    assert FullMatrixFromElementCenter(rs, rect, scroll, true, true, hypot) == Some(Multiply(t, m));
  }

  /**
   * applyMatrixScale(matrix, scaleMatrix): overwrites a and d of `matrix`
   * with those of `scaleMatrix` (the source updates `matrix` in place and
   * returns it). A non-finite matrix stays non-finite: b or c keeps its NaN.
   */
  function ApplyMatrixScale(m: Option<Matrix>, scale: Matrix): (r: Option<Matrix>)
    ensures r.Some? <==> m.Some?
    ensures r.Some? ==> r.value.a == scale.a && r.value.d == scale.d
    ensures r.Some? ==> r.value.b == m.value.b && r.value.c == m.value.c &&
                        r.value.e == m.value.e && r.value.f == m.value.f
  {
    if m.Some? then Some(m.value.(a := scale.a, d := scale.d)) else None
  }

  /** Applying a matrix's own scale to itself changes nothing (the aliased call in startSlideIn/Out). */
  lemma ApplyOwnScale(m: Matrix)
    ensures ApplyMatrixScale(Some(m), m) == Some(m)
  {
  }
}
