/**
 * Text rotation by multiples of 90 degrees (`FontTransform` in
 * src/style/font/font_desc.rs) and the integer layout box it acts on.
 */
module FontTransforms {
  import opened Int32

  datatype Point = Point(x: I32, y: I32)

  /** A layout box `((min_x, min_y), (max_x, max_y))` in unrotated glyph space. */
  datatype Box = Box(min: Point, max: Point)

  const ZeroBox: Box := Box(Point(0, 0), Point(0, 0))

  datatype FontTransform = None | Rotate90 | Rotate180 | Rotate270

  /** Horizontal extent of a box, `max.x - min.x` on `i32`. */
  function Width(b: Box): I32 { Sub(b.max.x, b.min.x) }

  /** Vertical extent of a box, `max.y - min.y` on `i32`. */
  function Height(b: Box): I32 { Sub(b.max.y, b.min.y) }

  /** The box is well formed and both extents are representable as `i32`. */
  predicate ExtentsFit(b: Box) {
    b.min.x <= b.max.x && b.max.x - b.min.x <= MAX &&
    b.min.y <= b.max.y && b.max.y - b.min.y <= MAX
  }

  /**
   * Translation that brings the rotated box back to the non-negative quadrant,
   * anchoring the first character's top-left corner (in reading orientation).
   */
  function Offset(t: FontTransform, layout: Box): (r: Point)
    ensures ExtentsFit(layout) ==> r.x >= 0 && r.y >= 0
  {
    match t
    case None => Point(0, 0)
    case Rotate90 => Point(Height(layout), 0)
    case Rotate180 => Point(Width(layout), Height(layout))
    case Rotate270 => Point(0, Width(layout))
  }

  /** Rotates the glyph-space coordinate `(x, y)`. */
  function Transform(t: FontTransform, x: I32, y: I32): Point {
    match t
    case None => Point(x, y)
    case Rotate90 => Point(Neg(y), x)
    case Rotate180 => Point(Neg(x), Neg(y))
    case Rotate270 => Point(y, Neg(x))
  }

  /** A quarter turn (one way or the other) exchanges the horizontal and vertical axes. */
  predicate SwapsAxes(t: FontTransform) {
    t == Rotate90 || t == Rotate270
  }

  // ---------------------------------------------------------------------------
  // Reference model: every transform is a number of quarter turns.

  /** Number of quarter turns a transform performs. */
  function Quarters(t: FontTransform): (k: nat)
    ensures k < 4
  {
    match t
    case None => 0
    case Rotate90 => 1
    case Rotate180 => 2
    case Rotate270 => 3
  }

  /** The transform performing `k` quarter turns, `k < 4`. */
  function FromQuarters(k: nat): (t: FontTransform)
    requires k < 4
    ensures Quarters(t) == k
  {
    if k == 0 then None
    else if k == 1 then Rotate90
    else if k == 2 then Rotate180
    else Rotate270
  }

  /** One quarter turn of a point. */
  function QuarterTurn(p: Point): Point { Point(Neg(p.y), p.x) }

  /** `k` quarter turns of a point. */
  function QuarterTurns(k: nat, p: Point): Point {
    if k == 0 then p else QuarterTurn(QuarterTurns(k - 1, p))
  }

  /** Applying `first` and then `second`. */
  function Compose(first: FontTransform, second: FontTransform): (t: FontTransform)
    ensures Quarters(t) + (if Quarters(first) + Quarters(second) >= 4 then 4 else 0)
            == Quarters(first) + Quarters(second)
  {
    var k := Quarters(first) + Quarters(second);
    FromQuarters(if k >= 4 then k - 4 else k)
  }

  /** The rotation that undoes `t`. */
  function Inverse(t: FontTransform): (r: FontTransform)
    ensures Compose(t, r) == None && Compose(r, t) == None
  {
    if t == None then None else FromQuarters(4 - Quarters(t))
  }

  lemma {:induction false} QuarterTurnsPeriodic(k: nat, p: Point)
    ensures QuarterTurns(k + 4, p) == QuarterTurns(k, p)
  {
    if k == 0 {
      NegInvolutive(p.x);
      NegInvolutive(p.y);
      assert QuarterTurns(1, p) == Point(Neg(p.y), p.x);
      assert QuarterTurns(2, p) == Point(Neg(p.x), Neg(p.y));
      assert QuarterTurns(3, p) == Point(p.y, Neg(p.x));
    } else {
      QuarterTurnsPeriodic(k - 1, p);
    }
  }

  lemma {:induction false} QuarterTurnsAdd(j: nat, k: nat, p: Point)
    ensures QuarterTurns(k, QuarterTurns(j, p)) == QuarterTurns(j + k, p)
  {
    if k > 0 {
      QuarterTurnsAdd(j, k - 1, p);
    }
  }

  // ---------------------------------------------------------------------------
  // Properties of the rotation.

  /** `transform` is `(x, y)`, `(-y, x)`, `(-x, -y)` or `(y, -x)` whenever no negation overflows. */
  lemma TransformExact(t: FontTransform, x: I32, y: I32)
    requires x != MIN && y != MIN
    ensures t == None ==> Transform(t, x, y) == Point(x, y)
    ensures t == Rotate90 ==> Transform(t, x, y) == Point(-(y as int), x)
    ensures t == Rotate180 ==> Transform(t, x, y) == Point(-(x as int), -(y as int))
    ensures t == Rotate270 ==> Transform(t, x, y) == Point(y, -(x as int))
  {
  }

  /** Each transform is its number of quarter turns applied to the point. */
  lemma TransformIsQuarterTurns(t: FontTransform, x: I32, y: I32)
    ensures Transform(t, x, y) == QuarterTurns(Quarters(t), Point(x, y))
  {
    var p := Point(x, y);
    NegInvolutive(x);
    assert QuarterTurns(1, p) == Point(Neg(y), x);
    assert QuarterTurns(2, p) == Point(Neg(x), Neg(y));
    assert QuarterTurns(3, p) == Point(y, Neg(x));
  }

  /** Rotating twice is rotating by the sum of the angles (exact, also at `MIN`). */
  lemma TransformCompose(first: FontTransform, second: FontTransform, x: I32, y: I32)
    ensures var p := Transform(first, x, y);
            Transform(second, p.x, p.y) == Transform(Compose(first, second), x, y)
  {
    var o := Point(x, y);
    var j, k := Quarters(first), Quarters(second);
    var p := Transform(first, x, y);
    TransformIsQuarterTurns(first, x, y);
    TransformIsQuarterTurns(second, p.x, p.y);
    assert Transform(second, p.x, p.y) == QuarterTurns(k, QuarterTurns(j, o));
    QuarterTurnsAdd(j, k, o);
    TransformIsQuarterTurns(Compose(first, second), x, y);
    if j + k >= 4 {
      QuarterTurnsPeriodic(j + k - 4, o);
    }
  }

  /** `Rotate90` twice is `Rotate180`, `Rotate180` twice and `Rotate90` then `Rotate270` are the identity. */
  lemma RotationCompositions(x: I32, y: I32)
    ensures var p := Transform(Rotate90, x, y); Transform(Rotate90, p.x, p.y) == Transform(Rotate180, x, y)
    ensures var p := Transform(Rotate180, x, y); Transform(Rotate180, p.x, p.y) == Point(x, y)
    ensures var p := Transform(Rotate90, x, y); Transform(Rotate270, p.x, p.y) == Point(x, y)
  {
    TransformCompose(Rotate90, Rotate90, x, y);
    TransformCompose(Rotate180, Rotate180, x, y);
    TransformCompose(Rotate90, Rotate270, x, y);
  }

  /** Rotating back by the inverse restores the coordinate. */
  lemma TransformRoundTrip(t: FontTransform, x: I32, y: I32)
    ensures var p := Transform(t, x, y); Transform(Inverse(t), p.x, p.y) == Point(x, y)
  {
    TransformCompose(t, Inverse(t), x, y);
  }

  /** The corner of the unrotated extent box that a rotation sends to the new top-left. */
  function AnchorCorner(t: FontTransform, layout: Box): Point {
    match t
    case None => Point(0, 0)
    case Rotate90 => Point(0, Height(layout))
    case Rotate180 => Point(Width(layout), Height(layout))
    case Rotate270 => Point(Width(layout), 0)
  }

  /**
   * The offset anchors the rotated box at the origin: every point `(u, v)` of
   * the extent box `[0, w] x [0, h]` is rotated and shifted into
   * `[0, w'] x [0, h']`, where `(w', h')` is `(w, h)` or, for a quarter turn,
   * `(h, w)`, and the anchor corner lands exactly on `(0, 0)`.
   */
  lemma OffsetAnchorsBox(t: FontTransform, layout: Box, u: I32, v: I32)
    requires ExtentsFit(layout)
    requires 0 <= u <= Width(layout) && 0 <= v <= Height(layout)
    ensures var p := Transform(t, u, v); var o := Offset(t, layout);
            var (w', h') := if SwapsAxes(t) then (Height(layout), Width(layout))
                            else (Width(layout), Height(layout));
            0 <= p.x + o.x <= w' && 0 <= p.y + o.y <= h'
    ensures var c := AnchorCorner(t, layout); var p := Transform(t, c.x, c.y); var o := Offset(t, layout);
            p.x + o.x == 0 && p.y + o.y == 0
  {
  }

  /**
   * Rotation preserves magnitudes: the unsigned absolute values of a rotated
   * point are those of the original, exchanged by a quarter turn.
   */
  lemma TransformMagnitudes(t: FontTransform, x: I32, y: I32)
    ensures var p := Transform(t, x, y);
            (UnsignedAbs(p.x), UnsignedAbs(p.y)) ==
              if SwapsAxes(t) then (UnsignedAbs(y), UnsignedAbs(x)) else (UnsignedAbs(x), UnsignedAbs(y))
  {
    UnsignedAbsNeg(x);
    UnsignedAbsNeg(y);
  }
}
