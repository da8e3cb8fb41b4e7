/**
 * The overlay window: its interaction fields, the three pointer handlers that
 * update them in place, the wheel message a nudge becomes, and the paint handler
 * that fills a colour buffer and an alpha buffer pixel by pixel.
 */
module ScrollTool {

  import opened Wrappers
  import opened Geometry
  import opened Gesture
  import opened Shading
  import WheelMessage

  /** Centre-relative squared distance of pixel k of a square window, in row-major order. */
  function PixelSqDist(size: nat, k: nat): (d2: real)
    requires k < size * size
    ensures 0.0 <= d2
  {
    var column := (k % size) as real - size as real / 2.0;
    var row := (k / size) as real - size as real / 2.0;
    SqNorm(Point(column, row))
  }

  class ScrollToolFrame {

    const size: nat
    const geometry: Geometry
    /** The target window's scroll position, where every wheel message is attributed. */
    const scrollX: int
    const scrollY: int
    /** The per-pixel angle field (atan2 of the pixel's offset, plus π), row-major. */
    const angles: seq<real>

    var currentInteractionType: Option<InteractionType>
    var awaitingLeftUp: bool
    var dragAngle: Option<real>
    var prevDragAngle: Option<real>
    var prevDragPos: Option<Point>
    var hoveringOverCloseBtn: bool
    /** Whether the layered window currently has the WS_EX_TRANSPARENT style. */
    var clickThrough: bool
    /** Whether this window holds the pointer capture. */
    ghost var captured: bool

    ghost function State(): GestureState
      reads this
    {
      GestureState(currentInteractionType, awaitingLeftUp, dragAngle, prevDragAngle,
                   prevDragPos, hoveringOverCloseBtn, captured, clickThrough)
    }

    /**
     * The frame's invariant: a scroll-wheel interaction has its drag fields set
     * and, when the dead zone lies within the hole, the last drag position is
     * outside the dead zone.
     */
    ghost predicate Valid()
      reads this
    {
      && geometry.nudgeAngle != 0.0
      && |angles| == size * size
      && (forall k :: 0 <= k < |angles| ==> ValidAngle(angles[k]))
      && Wellformed(State())
      && (DeadZoneWithinHole(geometry) ==> DeadZoneClear(geometry, State()))
    }

    /** The pointer position (x, y) in window pixels, relative to the centre of the window. */
    function PointerAt(x: int, y: int): Point
    {
      Point(x as real - size as real / 2.0, y as real - size as real / 2.0)
    }

    constructor (config: Config, scrollPos: (int, int), angleField: seq<real>)
      requires config.nDivisions != 0
      requires |angleField| == config.size * config.size
      requires forall k :: 0 <= k < |angleField| ==> ValidAngle(angleField[k])
      ensures Valid() && State() == Initial()
      ensures size == config.size && geometry == Derive(config)
      ensures (scrollX, scrollY) == scrollPos && angles == angleField
    {
      size := config.size;
      geometry := Derive(config);
      scrollX, scrollY := scrollPos.0, scrollPos.1;
      angles := angleField;
      currentInteractionType := None;
      awaitingLeftUp := false;
      dragAngle := None;
      prevDragAngle := None;
      prevDragPos := None;
      hoveringOverCloseBtn := false;
      clickThrough := false;
      captured := false;
    }

    /**
     * A left press at window pixel (x, y), whose angle is `angle`. Reports
     * whether the press was taken (and the pointer captured).
     */
    method OnClickDown(x: int, y: int, angle: real) returns (processed: bool)
      requires Valid() && ValidAngle(angle)
      modifies this
      ensures Valid()
      ensures State() == ClickDown(geometry, old(State()), PointerAt(x, y), angle)
      ensures processed <==> InRing(geometry, SqNorm(PointerAt(x, y))) || InCloseButton(geometry, SqNorm(PointerAt(x, y)))
    {
      var p := PointerAt(x, y);
      var d2 := SqNorm(p);
      processed := false;
      if geometry.TotalRadiusSq() > d2 > geometry.HoleRadiusSq() {
        dragAngle := Some(angle);
        prevDragAngle := dragAngle;
        prevDragPos := Some(p);
        currentInteractionType := Some(ScrollWheel);
        clickThrough := true;
        processed := true;
      } else if d2 < geometry.CloseButtonRadiusSq() {
        currentInteractionType := Some(CloseButton);
        processed := true;
      }
      if processed {
        awaitingLeftUp := true;
        captured := true;
      }
    }

    /** A left release; reports whether it was ignored, ended the gesture or exits the program. */
    method OnClickUp() returns (outcome: ReleaseOutcome)
      requires Valid()
      modifies this
      ensures Valid()
      ensures (State(), outcome) == ClickUp(old(State()))
    {
      if !awaitingLeftUp {
        return Ignored;
      }
      if hoveringOverCloseBtn {
        captured := false;
        return Exit;
      }
      clickThrough := false;
      awaitingLeftUp := false;
      captured := false;
      outcome := Released;
    }

    /**
     * A pointer move to window pixel (x, y), whose angle is `angle`. Returns the
     * nudges the move emits, in order.
     */
    method OnMotion(x: int, y: int, angle: real) returns (nudges: seq<int>)
      requires Valid() && ValidAngle(angle)
      modifies this
      ensures Valid()
      ensures (State(), nudges) == Motion(geometry, old(State()), PointerAt(x, y), angle)
    {
      var p := PointerAt(x, y);
      var d2 := SqNorm(p);
      var hovering := d2 < geometry.CloseButtonRadiusSq();
      if hovering != hoveringOverCloseBtn {
        hoveringOverCloseBtn := hovering;
      }
      nudges := [];
      if !awaitingLeftUp {
        return;
      }
      if currentInteractionType == Some(ScrollWheel) && d2 > geometry.DeadZoneRadiusSq() {
        var prevPos := prevDragPos.value;
        if SqNorm(prevPos) < geometry.DeadZoneRadiusSq() {
          prevDragAngle := Some(angle);
        }
        var prev := prevDragAngle.value;
        if prev - angle > PI {
          dragAngle := Some(angle + (angle - prev));
          nudges := [-1];
        } else if prev - angle < -PI {
          dragAngle := Some(angle + (angle - prev));
          nudges := [1];
        } else {
          var segment := Segment(angle, geometry.nudgeAngle);
          var lastSegment := Segment(prev, geometry.nudgeAngle);
          if segment - lastSegment != 0 {
            nudges := [-Sign(segment - lastSegment)];
          }
        }
        dragAngle := Some(angle);
        prevDragAngle := Some(angle);
        prevDragPos := Some(p);
      }
    }

    /**
     * The WM_MOUSEWHEEL parameters posted to the target window for a nudge
     * count: the delta in wParam's high word, the scroll position in lParam.
     */
    function ScrollWheelNudge(nudges: int): (m: WheelMessage.Message)
      ensures m.wParam % WheelMessage.WORD == 0
      ensures m.wParam / WheelMessage.WORD == WheelMessage.WHEEL_DELTA * nudges
      ensures m.lParam % WheelMessage.WORD == scrollX % WheelMessage.WORD
      ensures m.lParam / WheelMessage.WORD == scrollY
    {
      WheelMessage.Pack(nudges, scrollX, scrollY)
    }

    /**
     * The paint handler's buffers: for every pixel, its colour and its alpha
     * byte, as the masks and the current interaction state determine them.
     */
    method Paint() returns (cdata: array<Color>, adata: array<int>)
      requires Valid()
      ensures fresh(cdata) && fresh(adata)
      ensures cdata.Length == adata.Length == size * size
      ensures forall k :: 0 <= k < size * size ==>
                cdata[k] == PixelColor(geometry, State(), angles[k], PixelSqDist(size, k))
      ensures forall k :: 0 <= k < size * size ==>
                adata[k] == PixelAlpha(geometry, PixelSqDist(size, k), hoveringOverCloseBtn)
    {
      var n := size * size;
      cdata := new Color[n](_ => BG_COLOR_0);
      adata := new int[n](_ => 0);
      var showSelector := awaitingLeftUp && currentInteractionType == Some(ScrollWheel);
      var k := 0;
      while k < n
        invariant 0 <= k <= n
        invariant forall j :: 0 <= j < k ==>
                    cdata[j] == PixelColor(geometry, State(), angles[j], PixelSqDist(size, j))
        invariant forall j :: 0 <= j < k ==>
                    adata[j] == PixelAlpha(geometry, PixelSqDist(size, j), hoveringOverCloseBtn)
      {
        var d2 := PixelSqDist(size, k);
        var angle := angles[k];

        var c := BG_COLOR_0;
        if StripeLit(geometry, angle) {
          c := BG_COLOR_1;
        }
        if InCloseButton(geometry, d2) {
          c := BG_COLOR_0;
        }
        if showSelector && InSelector(geometry, angle, d2, dragAngle.value) {
          c := SELECTOR_COLOR;
        }
        cdata[k] := c;

        var a := 0.0;
        if InRing(geometry, d2) {
          a := 255.0;
        }
        if InHole(geometry, d2) {
          a := 1.0;
        }
        if InCloseButton(geometry, d2) {
          a := if hoveringOverCloseBtn then 100.0 else 50.0;
        }
        if InRingEdge(geometry, d2) || InCloseButtonEdge(geometry, d2) {
          a := a * EDGE_ALPHA_FACTOR;
        }
        adata[k] := a.Floor;

        k := k + 1;
      }
    }
  }
}
