/**
 * What one pixel of the dial looks like. Each pixel depends only on its squared
 * distance from the centre, its angle, and the frame's hover and drag state.
 * The colour and alpha functions apply the paint handler's overwrites in its
 * order; the lemmas say what that order amounts to, region by region.
 */
module Shading {

  import opened Geometry
  import opened Gesture

  datatype Color = Color(red: int, green: int, blue: int)

  const BG_COLOR_0: Color := Color(100, 100, 125)
  const BG_COLOR_1: Color := Color(90, 90, 110)
  const SELECTOR_COLOR: Color := Color(100, 100, 200)

  /** The pseudo-antialiasing factor applied to edge-band pixels. */
  const EDGE_ALPHA_FACTOR: real := 0.75

  /** Python's floored remainder on floats: t - m * floor(t / m). */
  function FloatMod(t: real, m: real): (r: real)
    requires m > 0.0
    ensures 0.0 <= r < m
  {
    FloorBounds(t, m);
    t - m * (t / m).Floor as real
  }

  lemma ScaleStrict(m: real, a: real, b: real)
    requires m > 0.0 && a < b
    ensures m * a < m * b
  {
    assert m * b - m * a == m * (b - a);
  }

  /** Bounds of m * k around t when k <= t / m < k + 1. */
  lemma ScaledBounds(t: real, m: real, q: real, k: real)
    requires m > 0.0 && q == t / m && k <= q < k + 1.0
    ensures m * k <= t < m * k + m
  {
    assert m * q == t;
    if k < q {
      ScaleStrict(m, k, q);
    }
    ScaleStrict(m, q, k + 1.0);
    assert m * (k + 1.0) == m * k + m;
  }

  lemma FloorBounds(t: real, m: real)
    requires m > 0.0
    ensures m * (t / m).Floor as real <= t < m * (t / m).Floor as real + m
  {
    ScaledBounds(t, m, t / m, (t / m).Floor as real);
  }

  /** Adding whole periods does not change the remainder. */
  lemma FloatModPeriodic(t: real, m: real, k: int)
    requires m > 0.0
    ensures FloatMod(t + m * k as real, m) == FloatMod(t, m)
  {
    var q := (t / m).Floor;
    assert (t + m * k as real) / m == t / m + k as real;
    assert ((t + m * k as real) / m).Floor == q + k;
  }

  /** A value already in [0, m) is its own remainder. */
  lemma FloatModSmall(t: real, m: real)
    requires m > 0.0 && 0.0 <= t < m
    ensures FloatMod(t, m) == t
  {
    var q := t / m;
    assert 0.0 <= q < 1.0 by {
      assert m * q == t;
      if q >= 1.0 {
        ScaledBounds(t, m, q, q);
        assert false;
      }
      if q < 0.0 {
        ScaleStrict(m, q, 0.0);
        assert false;
      }
    }
    assert (t / m).Floor == 0;
  }

  /** `t % 2 < 1` holds exactly when floor(t) is even. */
  lemma {:induction false} StripeParity(t: real)
    ensures FloatMod(t, 2.0) < 1.0 <==> t.Floor % 2 == 0
  {
    var k := (t / 2.0).Floor;
    FloorBounds(t, 2.0);
    var f := t.Floor;
    assert f as real <= t < f as real + 1.0;
    if FloatMod(t, 2.0) < 1.0 {
      assert 2.0 * k as real <= t < 2.0 * k as real + 1.0;
      assert f == 2 * k;
    } else {
      assert 2.0 * k as real + 1.0 <= t < 2.0 * k as real + 2.0;
      assert f == 2 * k + 1;
    }
  }

  /** The alternating background: `angles / nudge_angle % 2 < 1`. */
  predicate StripeLit(g: Geometry, angle: real)
    requires g.nudgeAngle != 0.0
  {
    FloatMod(angle / g.nudgeAngle, 2.0) < 1.0
  }

  /** The colour before the selector: the first background, the second on lit stripes, the first again on the close button. */
  function BaseColor(g: Geometry, angle: real, d2: real): Color
    requires g.nudgeAngle != 0.0
  {
    var c0 := BG_COLOR_0;
    var c1 := if StripeLit(g, angle) then BG_COLOR_1 else c0;
    if InCloseButton(g, d2) then BG_COLOR_0 else c1
  }

  /** The pixel's angle relative to the selector's leading edge, normalised into [0, 2π). */
  function SelectorOffset(g: Geometry, angle: real, dragAngle: real): (a: real)
    ensures 0.0 <= a < TWO_PI
  {
    FloatMod(angle - dragAngle + g.selectorSize / 2.0, TWO_PI)
  }

  predicate InSelectorBand(g: Geometry, d2: real)
  {
    g.SelectorInnerSq() < d2 < g.SelectorOuterSq()
  }

  /** The selector mask: strictly inside the angular window and the radial band. */
  predicate InSelector(g: Geometry, angle: real, d2: real, dragAngle: real)
  {
    var offset := SelectorOffset(g, angle, dragAngle);
    0.0 < offset < g.selectorSize && InSelectorBand(g, d2)
  }

  /** The final colour of a pixel. */
  function PixelColor(g: Geometry, s: GestureState, angle: real, d2: real): (c: Color)
    requires g.nudgeAngle != 0.0 && Wellformed(s)
    ensures c == SELECTOR_COLOR <==> Dragging(s) && InSelector(g, angle, d2, s.dragAngle.value)
    ensures c != SELECTOR_COLOR ==> c == BaseColor(g, angle, d2)
  {
    if Dragging(s) && InSelector(g, angle, d2, s.dragAngle.value) then
      SELECTOR_COLOR
    else
      BaseColor(g, angle, d2)
  }

  /** The alpha level before the cast to a byte: region values in drawing order, then the edge factor. */
  function AlphaLevel(g: Geometry, d2: real, hovering: bool): (a: real)
    ensures 0.0 <= a <= 255.0
  {
    var a0 := 0.0;
    var a1 := if InRing(g, d2) then 255.0 else a0;
    var a2 := if InHole(g, d2) then 1.0 else a1;
    var a3 := if InCloseButton(g, d2) then (if hovering then 100.0 else 50.0) else a2;
    if InRingEdge(g, d2) || InCloseButtonEdge(g, d2) then a3 * EDGE_ALPHA_FACTOR else a3
  }

  /** The alpha byte: the level truncated to an unsigned 8-bit value. */
  function PixelAlpha(g: Geometry, d2: real, hovering: bool): (a: int)
    ensures 0 <= a <= 255
  {
    AlphaLevel(g, d2, hovering).Floor
  }

  /**
   * Alpha by region for a valid geometry: 0 outside ring and hole (their
   * boundaries included), 255 in the ring, 1 in the hole, 100 or 50 on the close
   * button as it is hovered or not, and edge pixels scaled by 0.75 and
   * truncated to 191, 75 or 37.
   */
  lemma AlphaByRegion(g: Geometry, d2: real, hovering: bool)
    requires ValidGeometry(g)
    ensures !InRing(g, d2) && !InHole(g, d2) ==> PixelAlpha(g, d2, hovering) == 0
    ensures InRing(g, d2) ==> PixelAlpha(g, d2, hovering) == if InRingEdge(g, d2) then 191 else 255
    ensures InHole(g, d2) && !InCloseButton(g, d2) ==> PixelAlpha(g, d2, hovering) == 1
    ensures InCloseButton(g, d2) && !InCloseButtonEdge(g, d2) ==>
              PixelAlpha(g, d2, hovering) == if hovering then 100 else 50
    ensures InCloseButtonEdge(g, d2) ==> PixelAlpha(g, d2, hovering) == if hovering then 75 else 37
  {
    MaskLayout(g, d2);
  }

  /**
   * The background is the second colour exactly on even segments outside the
   * close button, and the first colour everywhere else.
   */
  lemma BaseColorByStripe(g: Geometry, angle: real, d2: real)
    requires g.nudgeAngle != 0.0
    ensures BaseColor(g, angle, d2) == BG_COLOR_1 <==>
              !InCloseButton(g, d2) && Segment(angle, g.nudgeAngle) % 2 == 0
    ensures BaseColor(g, angle, d2) != BG_COLOR_1 ==> BaseColor(g, angle, d2) == BG_COLOR_0
  {
    StripeParity(angle / g.nudgeAngle);
  }

  /**
   * Where the pixel's angle is within half a turn of the drag angle (after
   * adding some whole number k of turns), the selector covers it exactly when it
   * lies strictly within half the selector's size of the drag angle.
   */
  lemma SelectorAroundDragAngle(g: Geometry, angle: real, d2: real, dragAngle: real, k: int)
    requires 0.0 <= angle + TWO_PI * k as real - dragAngle + g.selectorSize / 2.0 < TWO_PI
    ensures InSelector(g, angle, d2, dragAngle) <==>
              && -g.selectorSize / 2.0 < angle + TWO_PI * k as real - dragAngle < g.selectorSize / 2.0
              && InSelectorBand(g, d2)
  {
    var t := angle - dragAngle + g.selectorSize / 2.0;
    FloatModPeriodic(t, TWO_PI, k);
    FloatModSmall(t + TWO_PI * k as real, TWO_PI);
  }

  /**
   * The selector lies on the ring, so its pixels are opaque (255, or 191 on the
   * ring's edge band): it changes colour only where the ring is drawn.
   */
  lemma SelectorOnOpaqueRing(g: Geometry, angle: real, d2: real, dragAngle: real, hovering: bool)
    requires ValidGeometry(g) && SelectorWithinRing(g)
    requires InSelector(g, angle, d2, dragAngle)
    ensures InRing(g, d2)
    ensures PixelAlpha(g, d2, hovering) == 255 || PixelAlpha(g, d2, hovering) == 191
  {
    SelectorBandInRing(g, d2);
    AlphaByRegion(g, d2, hovering);
  }

  lemma SelectorBandInRing(g: Geometry, d2: real)
    requires SelectorWithinRing(g) && InSelectorBand(g, d2)
    ensures InRing(g, d2)
  {
    SquareMonotone(g.holeRadius, g.holeRadius + g.selectorMargin);
    SquareMonotone(g.radius - g.selectorMargin, g.radius);
  }
}
