/**
 * The dial's fixed geometry: the constructor's configuration, the radii derived
 * from it, and the per-pixel region masks, each a predicate on a pixel's squared
 * distance from the centre of the window.
 */
module Geometry {

  /** π as a fixed rational; the trigonometry that produces angles is not modelled. */
  const PI: real := 3.141592653589793
  const TWO_PI: real := 2.0 * PI

  /** Width of the pseudo-antialiased band at each circular edge, in pixels. */
  const EDGE_SIZE: real := 0.5

  /** A pointer or pixel position relative to the centre of the window. */
  datatype Point = Point(x: real, y: real)

  function SqNorm(p: Point): real
  {
    p.x * p.x + p.y * p.y
  }

  /** The keyword arguments of the frame's constructor (the window is square). */
  datatype Config = Config(
    size: nat,
    radius: int,
    holePct: real,
    nDivisions: int,
    selectorSizePct: real,
    selectorMarginPct: real,
    closeButtonRadiusPct: real,
    deadZoneRadiusPct: real)

  /** The configuration the program launches with: a 500x500 window, radius 150, and the other defaults. */
  function LaunchConfig(): Config
  {
    Config(500, 150, 0.75, 20, 0.05, 0.1, 0.5, 0.75)
  }

  /** Lengths derived once in the constructor; the masks compare against their squares. */
  datatype Geometry = Geometry(
    radius: real,
    holeRadius: real,
    selectorMargin: real,
    nudgeAngle: real,
    selectorSize: real,
    closeButtonRadius: real,
    deadZoneRadius: real)
  {
    function TotalRadiusSq(): real { radius * radius }
    function HoleRadiusSq(): real { holeRadius * holeRadius }
    function SelectorInnerSq(): real { (holeRadius + selectorMargin) * (holeRadius + selectorMargin) }
    function SelectorOuterSq(): real { (radius - selectorMargin) * (radius - selectorMargin) }
    function CloseButtonRadiusSq(): real { closeButtonRadius * closeButtonRadius }
    function DeadZoneRadiusSq(): real { deadZoneRadius * deadZoneRadius }
  }

  /**
   * The constructor's arithmetic. A zero segment count is a division by zero
   * in the source, so it is excluded; every other configuration is accepted.
   */
  function Derive(c: Config): (g: Geometry)
    requires c.nDivisions != 0
    ensures g.nudgeAngle * c.nDivisions as real == TWO_PI
    ensures g.radius - g.holeRadius == c.radius as real * (1.0 - c.holePct)
    ensures g.selectorSize == TWO_PI * c.selectorSizePct
  {
    var holeRadius := c.radius as real * c.holePct;
    var ringThickness := c.radius as real - holeRadius;
    Geometry(
      c.radius as real,
      holeRadius,
      ringThickness * c.selectorMarginPct,
      TWO_PI / c.nDivisions as real,
      TWO_PI * c.selectorSizePct,
      holeRadius * c.closeButtonRadiusPct,
      holeRadius * c.deadZoneRadiusPct)
  }

  /**
   * The shape the masks are meant to have: a close button of at least half an
   * edge band inside the hole, and the hole inside the outer radius.
   */
  predicate ValidGeometry(g: Geometry)
  {
    EDGE_SIZE / 2.0 <= g.closeButtonRadius <= g.holeRadius < g.radius
  }

  /** The dead zone does not reach beyond the hole (dead_zone_radius_pct <= 1). */
  predicate DeadZoneWithinHole(g: Geometry)
  {
    g.DeadZoneRadiusSq() <= g.HoleRadiusSq()
  }

  /** The selector's margins keep it between the hole and the outer radius. */
  predicate SelectorWithinRing(g: Geometry)
  {
    0.0 <= g.holeRadius && 0.0 <= g.selectorMargin <= g.radius
  }

  // Per-pixel masks, as functions of the squared distance d2 from the centre.

  predicate InRing(g: Geometry, d2: real)
  {
    g.TotalRadiusSq() > d2 > g.HoleRadiusSq()
  }

  /** The ring minus its inner sub-band: the ring XOR the band half a pixel in from both edges. */
  predicate InRingEdge(g: Geometry, d2: real)
  {
    var inner := d2 < (g.radius - EDGE_SIZE) * (g.radius - EDGE_SIZE)
                 && d2 > (g.holeRadius + EDGE_SIZE) * (g.holeRadius + EDGE_SIZE);
    InRing(g, d2) != inner
  }

  predicate InHole(g: Geometry, d2: real)
  {
    d2 < g.HoleRadiusSq()
  }

  predicate InCloseButton(g: Geometry, d2: real)
  {
    d2 < g.CloseButtonRadiusSq()
  }

  /** The close button XOR the disk half a pixel smaller. */
  predicate InCloseButtonEdge(g: Geometry, d2: real)
  {
    var inner := d2 < (g.closeButtonRadius - EDGE_SIZE) * (g.closeButtonRadius - EDGE_SIZE);
    InCloseButton(g, d2) != inner
  }

  /** The segment an angle falls in: floor(angle / nudge_angle). */
  function Segment(angle: real, nudgeAngle: real): int
    requires nudgeAngle != 0.0
  {
    (angle / nudgeAngle).Floor
  }

  lemma SquareMonotone(a: real, b: real)
    requires 0.0 <= a <= b
    ensures a * a <= b * b
  {
    assert a * a <= a * b;
    assert a * b <= b * b;
  }

  /** Shrinking a radius of at least a quarter pixel by half a pixel never enlarges its square. */
  lemma ShrinkByEdge(a: real)
    requires a >= EDGE_SIZE / 2.0
    ensures (a - EDGE_SIZE) * (a - EDGE_SIZE) <= a * a
  {
    assert (a - EDGE_SIZE) * (a - EDGE_SIZE) == a * a - 2.0 * EDGE_SIZE * a + EDGE_SIZE * EDGE_SIZE;
  }

  /**
   * For a valid geometry the regions nest as drawn: ring and hole are disjoint,
   * the close button lies in the hole, and each edge band is exactly the part of
   * its region within half a pixel of a boundary.
   */
  lemma MaskLayout(g: Geometry, d2: real)
    requires ValidGeometry(g)
    ensures !(InRing(g, d2) && InHole(g, d2))
    ensures InCloseButton(g, d2) ==> InHole(g, d2)
    ensures InRingEdge(g, d2) <==>
              InRing(g, d2)
              && (d2 >= (g.radius - EDGE_SIZE) * (g.radius - EDGE_SIZE)
                  || d2 <= (g.holeRadius + EDGE_SIZE) * (g.holeRadius + EDGE_SIZE))
    ensures InCloseButtonEdge(g, d2) <==>
              InCloseButton(g, d2)
              && d2 >= (g.closeButtonRadius - EDGE_SIZE) * (g.closeButtonRadius - EDGE_SIZE)
  {
    SquareMonotone(g.closeButtonRadius, g.holeRadius);
    SquareMonotone(g.holeRadius, g.holeRadius + EDGE_SIZE);
    ShrinkByEdge(g.radius);
    ShrinkByEdge(g.closeButtonRadius);
  }

  /** The launch configuration yields a valid geometry whose dead zone lies within the hole. */
  lemma LaunchGeometryValid()
    ensures ValidGeometry(Derive(LaunchConfig()))
    ensures DeadZoneWithinHole(Derive(LaunchConfig()))
    ensures SelectorWithinRing(Derive(LaunchConfig()))
  {
  }
}
