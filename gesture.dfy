/**
 * The frame's gesture state machine as pure transition functions: what a press,
 * a release and a pointer move do to the interaction fields, and which wheel
 * nudges a move emits. The class in frame.dfy is proved to follow these.
 */
module Gesture {

  import opened Wrappers
  import opened Geometry

  datatype InteractionType = ScrollWheel | CloseButton

  /** What a release leads to: nothing, the end of the gesture, or the program's exit. */
  datatype ReleaseOutcome = Ignored | Released | Exit

  /**
   * The frame's interaction fields. `captured` stands for the pointer capture and
   * `clickThrough` for the WS_EX_TRANSPARENT window style.
   */
  datatype GestureState = GestureState(
    interaction: Option<InteractionType>,
    awaitingLeftUp: bool,
    dragAngle: Option<real>,
    prevDragAngle: Option<real>,
    prevDragPos: Option<Point>,
    hoveringOverCloseBtn: bool,
    captured: bool,
    clickThrough: bool)

  /** A pointer angle as atan2(y, x) + π produces it. */
  predicate ValidAngle(angle: real)
  {
    0.0 <= angle <= TWO_PI
  }

  /** A scroll-wheel interaction always has its drag fields set, so a move can read them. */
  predicate Wellformed(s: GestureState)
  {
    s.interaction == Some(ScrollWheel) ==>
      s.dragAngle.Some? && s.prevDragAngle.Some? && s.prevDragPos.Some?
  }

  /** The pointer is captured exactly while a release is awaited. */
  predicate CaptureHeld(s: GestureState)
  {
    s.captured == s.awaitingLeftUp
  }

  /** The last recorded drag position lies outside the dead zone. */
  predicate DeadZoneClear(g: Geometry, s: GestureState)
  {
    s.prevDragPos.Some? ==> SqNorm(s.prevDragPos.value) > g.DeadZoneRadiusSq()
  }

  /** A drag of the scroll wheel is under way. */
  predicate Dragging(s: GestureState)
  {
    s.awaitingLeftUp && s.interaction == Some(ScrollWheel)
  }

  /** The state the constructor leaves behind. */
  function Initial(): (s: GestureState)
    ensures Wellformed(s) && CaptureHeld(s) && !s.awaitingLeftUp
    ensures forall g :: DeadZoneClear(g, s)
  {
    GestureState(None, false, None, None, None, false, false, false)
  }

  /**
   * A left press at p (centre-relative) whose angle is `angle`. A press strictly
   * inside the ring starts a scroll-wheel drag; one strictly inside the close
   * button arms the close button; any other press changes nothing.
   */
  function ClickDown(g: Geometry, s: GestureState, p: Point, angle: real): (r: GestureState)
    requires ValidAngle(angle)
    ensures r.awaitingLeftUp <==>
              s.awaitingLeftUp || InRing(g, SqNorm(p)) || InCloseButton(g, SqNorm(p))
    ensures !InRing(g, SqNorm(p)) && !InCloseButton(g, SqNorm(p)) ==> r == s
    ensures InRing(g, SqNorm(p)) ==>
              Dragging(r) && r.captured && r.clickThrough
              && r.dragAngle == r.prevDragAngle == Some(angle) && r.prevDragPos == Some(p)
    ensures !InRing(g, SqNorm(p)) && InCloseButton(g, SqNorm(p)) ==>
              r == s.(interaction := Some(CloseButton), awaitingLeftUp := true, captured := true)
    ensures r.hoveringOverCloseBtn == s.hoveringOverCloseBtn
    ensures Wellformed(s) ==> Wellformed(r)
    ensures CaptureHeld(s) ==> CaptureHeld(r)
    ensures DeadZoneWithinHole(g) && DeadZoneClear(g, s) ==> DeadZoneClear(g, r)
  {
    var d2 := SqNorm(p);
    if g.TotalRadiusSq() > d2 > g.HoleRadiusSq() then
      s.(dragAngle := Some(angle), prevDragAngle := Some(angle), prevDragPos := Some(p),
         interaction := Some(ScrollWheel), clickThrough := true,
         awaitingLeftUp := true, captured := true)
    else if d2 < g.CloseButtonRadiusSq() then
      s.(interaction := Some(CloseButton), awaitingLeftUp := true, captured := true)
    else
      s
  }

  /**
   * A left release. Without an awaited release it does nothing. Over the close
   * button it releases the capture and exits, whatever the interaction; otherwise
   * it restores the window style and ends the gesture. The interaction type is
   * never reset.
   */
  function ClickUp(s: GestureState): (r: (GestureState, ReleaseOutcome))
    ensures r.1 == Ignored <==> !s.awaitingLeftUp
    ensures r.1 == Ignored ==> r.0 == s
    ensures r.1 == Exit <==> s.awaitingLeftUp && s.hoveringOverCloseBtn
    ensures r.1 == Exit ==> r.0 == s.(captured := false)
    ensures r.1 == Released ==>
              r.0 == s.(clickThrough := false, awaitingLeftUp := false, captured := false)
    ensures r.1 != Ignored ==> !r.0.captured
    ensures r.0.interaction == s.interaction
    ensures Wellformed(s) ==> Wellformed(r.0)
    ensures r.1 != Exit && CaptureHeld(s) ==> CaptureHeld(r.0)
  {
    if !s.awaitingLeftUp then
      (s, Ignored)
    else if s.hoveringOverCloseBtn then
      (s.(captured := false), Exit)
    else
      (s.(clickThrough := false, awaitingLeftUp := false, captured := false), Released)
  }

  function Sign(n: int): int
  {
    if n > 0 then 1 else if n < 0 then -1 else 0
  }

  /** A segment difference limited to one notch either way. */
  function ClampToNotch(n: int): (r: int)
    ensures -1 <= r <= 1 && Sign(r) == Sign(n)
  {
    if n > 1 then 1 else if n < -1 then -1 else n
  }

  function Sum(s: seq<int>): int
  {
    if s == [] then 0 else s[0] + Sum(s[1..])
  }

  /**
   * The nudges one processed move emits, going from angle `prev` to `angle`.
   * A jump of more than π is taken as a crossing of the 0/2π seam; otherwise the
   * segments are compared. Never more than one nudge of magnitude one is emitted,
   * however many segments the move crosses.
   */
  function Nudges(prev: real, angle: real, nudgeAngle: real): (r: seq<int>)
    requires nudgeAngle != 0.0
    ensures |r| <= 1 && forall n :: n in r ==> n == 1 || n == -1
    ensures prev - angle > PI ==> r == [-1]
    ensures prev - angle < -PI ==> r == [1]
    ensures -PI <= prev - angle <= PI ==>
              && (r == [-1] <==> Segment(angle, nudgeAngle) > Segment(prev, nudgeAngle))
              && (r == [1] <==> Segment(angle, nudgeAngle) < Segment(prev, nudgeAngle))
              && (r == [] <==> Segment(angle, nudgeAngle) == Segment(prev, nudgeAngle))
              && Sum(r) == ClampToNotch(Segment(prev, nudgeAngle) - Segment(angle, nudgeAngle))
  {
    if prev - angle > PI then
      [-1]
    else if prev - angle < -PI then
      [1]
    else
      var segment := Segment(angle, nudgeAngle);
      var lastSegment := Segment(prev, nudgeAngle);
      if segment - lastSegment != 0 then [-Sign(segment - lastSegment)] else []
  }

  /** A move is ignored unless a scroll-wheel drag is under way and the pointer is outside the dead zone. */
  predicate MoveIgnored(g: Geometry, s: GestureState, p: Point)
  {
    !Dragging(s) || SqNorm(p) <= g.DeadZoneRadiusSq()
  }

  /**
   * A pointer move to p whose angle is `angle`. It always records whether the
   * pointer hovers over the close button; a processed move compares the angle
   * with the previous one, emits its nudges and records the new angle and
   * position. When the previous position was inside the dead zone, the previous
   * angle is reset to the new one first, so that move emits nothing; this cannot
   * happen while DeadZoneClear holds.
   */
  function Motion(g: Geometry, s: GestureState, p: Point, angle: real): (r: (GestureState, seq<int>))
    requires g.nudgeAngle != 0.0 && Wellformed(s) && ValidAngle(angle)
    ensures r.0.hoveringOverCloseBtn == InCloseButton(g, SqNorm(p))
    ensures MoveIgnored(g, s, p) ==>
              r.0 == s.(hoveringOverCloseBtn := InCloseButton(g, SqNorm(p))) && r.1 == []
    ensures !MoveIgnored(g, s, p) ==>
              r.0 == s.(hoveringOverCloseBtn := InCloseButton(g, SqNorm(p)),
                        dragAngle := Some(angle), prevDragAngle := Some(angle),
                        prevDragPos := Some(p))
    ensures !MoveIgnored(g, s, p) && SqNorm(s.prevDragPos.value) < g.DeadZoneRadiusSq() ==>
              r.1 == []
    ensures !MoveIgnored(g, s, p) && SqNorm(s.prevDragPos.value) >= g.DeadZoneRadiusSq() ==>
              r.1 == Nudges(s.prevDragAngle.value, angle, g.nudgeAngle)
    ensures |r.1| <= 1 && forall n :: n in r.1 ==> n == 1 || n == -1
    ensures Wellformed(r.0) && (CaptureHeld(s) ==> CaptureHeld(r.0))
    ensures DeadZoneClear(g, s) ==> DeadZoneClear(g, r.0)
  {
    var d2 := SqNorm(p);
    var s1 := s.(hoveringOverCloseBtn := d2 < g.CloseButtonRadiusSq());
    if !s1.awaitingLeftUp then
      (s1, [])
    else if s1.interaction == Some(ScrollWheel) && d2 > g.DeadZoneRadiusSq() then
      var prevPos := s.prevDragPos.value;
      var prev := if SqNorm(prevPos) < g.DeadZoneRadiusSq() then angle else s.prevDragAngle.value;
      var nudges := Nudges(prev, angle, g.nudgeAngle);
      (s1.(dragAngle := Some(angle), prevDragAngle := Some(angle), prevDragPos := Some(p)), nudges)
    else
      (s1, [])
  }

  /** One sampled pointer move: its position and the angle of that position. */
  datatype Sample = Sample(pos: Point, angle: real)

  predicate ValidSamples(moves: seq<Sample>)
  {
    forall i :: 0 <= i < |moves| ==> ValidAngle(moves[i].angle)
  }

  predicate OutsideDeadZone(g: Geometry, moves: seq<Sample>)
  {
    forall i :: 0 <= i < |moves| ==> SqNorm(moves[i].pos) > g.DeadZoneRadiusSq()
  }

  /** Each move goes less than half a turn and crosses at most one segment boundary. */
  predicate SmallSteps(start: real, moves: seq<Sample>, nudgeAngle: real)
    requires nudgeAngle != 0.0
    decreases |moves|
  {
    moves == [] ||
    (&& -PI <= start - moves[0].angle <= PI
     && -1 <= Segment(moves[0].angle, nudgeAngle) - Segment(start, nudgeAngle) <= 1
     && SmallSteps(moves[0].angle, moves[1..], nudgeAngle))
  }

  /** A run of pointer moves, with the nudges they emit in order. */
  function Drag(g: Geometry, s: GestureState, moves: seq<Sample>): (GestureState, seq<int>)
    requires g.nudgeAngle != 0.0 && Wellformed(s) && ValidSamples(moves)
    decreases |moves|
  {
    if moves == [] then
      (s, [])
    else
      var (s1, first) := Motion(g, s, moves[0].pos, moves[0].angle);
      var (s2, rest) := Drag(g, s1, moves[1..]);
      (s2, first + rest)
  }

  lemma {:induction false} SumAppend(a: seq<int>, b: seq<int>)
    ensures Sum(a + b) == Sum(a) + Sum(b)
    decreases |a|
  {
    if a == [] {
      assert a + b == b;
    } else {
      assert (a + b)[1..] == a[1..] + b;
      SumAppend(a[1..], b);
    }
  }

  /**
   * During a drag that stays outside the dead zone and moves in small steps, the
   * nudges add up to the number of segments the angle went back by: every
   * boundary crossed forward emits -1 and every one crossed backward +1.
   */
  lemma {:induction false} DragEmitsSegmentDifference(g: Geometry, s: GestureState, moves: seq<Sample>)
    requires g.nudgeAngle > 0.0
    requires Wellformed(s) && Dragging(s) && DeadZoneClear(g, s)
    requires ValidSamples(moves) && OutsideDeadZone(g, moves) && |moves| > 0
    requires SmallSteps(s.prevDragAngle.value, moves, g.nudgeAngle)
    ensures Sum(Drag(g, s, moves).1) ==
              Segment(s.prevDragAngle.value, g.nudgeAngle) - Segment(moves[|moves| - 1].angle, g.nudgeAngle)
    ensures Drag(g, s, moves).0.dragAngle == Some(moves[|moves| - 1].angle)
    decreases |moves|
  {
    var (s1, first) := Motion(g, s, moves[0].pos, moves[0].angle);
    assert Sum(first) ==
             Segment(s.prevDragAngle.value, g.nudgeAngle) - Segment(moves[0].angle, g.nudgeAngle);
    if |moves| > 1 {
      var tail := moves[1..];
      assert ValidSamples(tail) by {
        forall i | 0 <= i < |tail| ensures ValidAngle(tail[i].angle) {
          assert tail[i] == moves[i + 1];
        }
      }
      assert OutsideDeadZone(g, tail) by {
        forall i | 0 <= i < |tail| ensures SqNorm(tail[i].pos) > g.DeadZoneRadiusSq() {
          assert tail[i] == moves[i + 1];
        }
      }
      DragEmitsSegmentDifference(g, s1, tail);
      var (s2, rest) := Drag(g, s1, tail);
      SumAppend(first, rest);
    } else {
      assert Drag(g, s1, moves[1..]) == (s1, []);
      assert first + [] == first;
    }
  }

  /**
   * One full forward turn, from angle 0 to 2π in small steps, emits a net
   * -nDivisions: one nudge per segment of the ring.
   */
  lemma FullTurnEmitsOneNudgePerSegment(c: Config, s: GestureState, moves: seq<Sample>)
    requires c.nDivisions > 0
    requires Wellformed(s) && Dragging(s) && DeadZoneClear(Derive(c), s)
    requires s.prevDragAngle == Some(0.0)
    requires ValidSamples(moves) && OutsideDeadZone(Derive(c), moves) && |moves| > 0
    requires moves[|moves| - 1].angle == TWO_PI
    requires SmallSteps(0.0, moves, Derive(c).nudgeAngle)
    ensures Sum(Drag(Derive(c), s, moves).1) == -c.nDivisions
  {
    FullTurnOnGeometry(Derive(c), c.nDivisions, s, moves);
  }

  lemma FullTurnOnGeometry(g: Geometry, n: int, s: GestureState, moves: seq<Sample>)
    requires n > 0 && g.nudgeAngle * n as real == TWO_PI
    requires Wellformed(s) && Dragging(s) && DeadZoneClear(g, s)
    requires s.prevDragAngle == Some(0.0)
    requires ValidSamples(moves) && OutsideDeadZone(g, moves) && |moves| > 0
    requires moves[|moves| - 1].angle == TWO_PI
    requires SmallSteps(0.0, moves, g.nudgeAngle)
    ensures Sum(Drag(g, s, moves).1) == -n
  {
    SegmentsOfFullTurn(n, g.nudgeAngle);
    DragEmitsSegmentDifference(g, s, moves);
  }

  /** With n segments per turn, angle 0 is in segment 0 and angle 2π in segment n. */
  lemma SegmentsOfFullTurn(n: int, nudgeAngle: real)
    requires n > 0 && nudgeAngle * n as real == TWO_PI
    ensures Segment(0.0, nudgeAngle) == 0
    ensures Segment(TWO_PI, nudgeAngle) == n
  {
    assert nudgeAngle > 0.0;
    assert TWO_PI / nudgeAngle == n as real;
  }

  /**
   * Once a drag has started with the dead zone inside the hole, the reset of the
   * previous angle never fires: a move inside the dead zone leaves the drag
   * fields alone, and the next move outside it is compared with the last angle
   * recorded before the pointer entered the dead zone.
   */
  lemma DeadZoneReentryComparesWithLastAngle(g: Geometry, s: GestureState, inside: Point, insideAngle: real, outside: Point, outsideAngle: real)
    requires g.nudgeAngle != 0.0 && Wellformed(s) && Dragging(s) && DeadZoneClear(g, s)
    requires ValidAngle(insideAngle) && ValidAngle(outsideAngle)
    requires SqNorm(inside) <= g.DeadZoneRadiusSq() < SqNorm(outside)
    ensures var (s1, first) := Motion(g, s, inside, insideAngle);
            && first == []
            && s1.prevDragAngle == s.prevDragAngle && s1.prevDragPos == s.prevDragPos
            && Motion(g, s1, outside, outsideAngle).1 == Nudges(s.prevDragAngle.value, outsideAngle, g.nudgeAngle)
  {
  }

  /**
   * When the dead zone reaches beyond the hole, a ring press can land inside the
   * dead zone. The reset of the previous angle then fires on the first move
   * outside it, and that move emits nothing, however far the angle turned.
   */
  lemma PressInDeadZoneSwallowsFirstMove(g: Geometry, s: GestureState, p: Point, angle: real, q: Point, qAngle: real)
    requires g.nudgeAngle != 0.0 && ValidAngle(angle) && ValidAngle(qAngle)
    requires InRing(g, SqNorm(p)) && SqNorm(p) < g.DeadZoneRadiusSq() < SqNorm(q)
    ensures var s1 := ClickDown(g, s, p, angle);
            var (s2, nudges) := Motion(g, s1, q, qAngle);
            && nudges == []
            && s2.prevDragAngle == Some(qAngle) && s2.prevDragPos == Some(q)
  {
  }

  /** A press on the ring always leaves the dead-zone invariant in place when the dead zone lies within the hole. */
  lemma PressOnRingStartsClear(g: Geometry, s: GestureState, p: Point, angle: real)
    requires ValidAngle(angle) && DeadZoneWithinHole(g) && InRing(g, SqNorm(p))
    ensures DeadZoneClear(g, ClickDown(g, s, p, angle))
    ensures Dragging(ClickDown(g, s, p, angle))
  {
  }

  /**
   * Releasing over the close button exits whatever was pressed: a scroll-wheel
   * drag moved onto the close button and released there exits too.
   */
  lemma ScrollDragReleasedOnCloseButtonExits(g: Geometry, s: GestureState, p: Point, angle: real, q: Point, qAngle: real)
    requires g.nudgeAngle != 0.0 && Wellformed(s) && ValidAngle(angle) && ValidAngle(qAngle)
    requires InRing(g, SqNorm(p)) && InCloseButton(g, SqNorm(q))
    ensures var s1 := ClickDown(g, s, p, angle);
            var s2 := Motion(g, s1, q, qAngle).0;
            ClickUp(s2).1 == Exit
  {
  }

  /**
   * Arming the close button and moving off it before releasing ends the gesture
   * without exiting; hovering back onto it before releasing exits.
   */
  lemma CloseButtonPressMoveRelease(g: Geometry, s: GestureState, p: Point, angle: real, q: Point, qAngle: real)
    requires g.nudgeAngle != 0.0 && Wellformed(s) && !s.awaitingLeftUp
    requires ValidAngle(angle) && ValidAngle(qAngle)
    requires InCloseButton(g, SqNorm(p)) && !InRing(g, SqNorm(p))
    ensures var s1 := ClickDown(g, s, p, angle);
            var s2 := Motion(g, s1, q, qAngle).0;
            && (!InCloseButton(g, SqNorm(q)) ==> ClickUp(s2).1 == Released && !ClickUp(s2).0.awaitingLeftUp)
            && (InCloseButton(g, SqNorm(q)) ==> ClickUp(s2).1 == Exit)
  {
  }
}
