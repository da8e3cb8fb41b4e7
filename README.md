# Scroll tool dial: a verified model

The scroll tool is a round, semi-transparent overlay. Dragging the pointer around its ring sends discrete mouse-wheel "nudges" to the window underneath. This project models the three parts of `ScrollToolFrame` that hold real logic, and proves what they do:

- **The gesture state machine.** `on_click_down`, `on_click_up` and `on_motion` become the class `ScrollTool.ScrollToolFrame`. Its fields are the frame's interaction fields, and its three methods update them in place. Each method is proved to follow a pure transition function in module `Gesture` (`ClickDown`, `ClickUp`, `Motion`). Those functions carry the properties, and lemmas cover runs of several events.
  - A press returns whether it was taken.
  - A release returns `Ignored`, `Released` or `Exit`.
  - A move returns the sequence of nudges it emits.
  - Pointer capture is a ghost field. The `WS_EX_TRANSPARENT` style is a boolean.
- **Wheel-message packing.** `send_scroll_wheel_nudge` becomes module `WheelMessage`. The wheel delta goes in the high word of wParam, and the scroll position goes in lParam. The module also holds the Win32 receiver's decoding, and proves that packing and decoding round-trip.
- **Per-pixel masks and shading.** The constructor's masks and the paint handler's compositing live in modules `Geometry` and `Shading`. They are functions of one pixel's squared distance, its angle, and the hover and drag state. `ScrollToolFrame.Paint` fills a colour buffer and an alpha buffer pixel by pixel, and is proved to agree with those functions.

Angles are inputs. The model does not compute them.
- Each handler takes the pointer angle `atan2(y, x) + π` as a parameter, with the precondition that it lies in [0, 2π].
- The frame is constructed with the per-pixel angle field.
- π is the fixed rational `3.141592653589793`.

Everything else is exact arithmetic on `real` and `int`:
- squared distances;
- `floor(angle / nudge_angle)`;
- Python's floored float remainder;
- the 0.75 alpha factor followed by truncation to a byte.

Notable behaviour of the code:
- A move emits at most one nudge of magnitude one, however many segments it crosses (`Gesture.Nudges`).
- The "extrapolated" drag angle set on a seam crossing is always overwritten by the new angle (`Gesture.Motion`).
- Releasing over the close button exits whatever the interaction was. This includes a scroll-wheel drag that ends on the button (`Gesture.ScrollDragReleasedOnCloseButtonExits`).
- Resetting the previous angle on re-entry from the dead zone never takes effect when the dead zone lies within the hole. A move inside the dead zone records nothing (`Gesture.DeadZoneReentryComparesWithLastAngle`).
- When the dead zone reaches beyond the hole, a ring press can land inside it. The first move outside the dead zone then resets the previous angle to its own and emits nothing (`Gesture.PressInDeadZoneSwallowsFirstMove`).
- There is no border band, no separate close-button colour, and no rounding of the selector's corners.
- Close-button pixels take the first background colour.
- A full forward turn nets `-nDivisions` nudges: each forward crossing emits -1.

## Model

| member | source | states |
|---|---|---|
| Geometry.Derive | src/scroll_tool/main.py:98-112 | the segments of the ring cover exactly one turn (`nudgeAngle * nDivisions == 2π`); the ring thickness and the selector's angular size follow from the configuration |
| Geometry.MaskLayout | src/scroll_tool/main.py:121-125 | for a valid geometry, ring and hole are disjoint and the close button lies in the hole; each edge mask (a region XOR its inner sub-band) is exactly the part of its region within half a pixel of a boundary |
| Geometry.LaunchGeometryValid | src/scroll_tool/main.py:326 | the launch configuration (500 px, radius 150, hole 0.75, default factors) gives a valid geometry with the dead zone inside the hole and the selector inside the ring |
| Gesture.Initial | src/scroll_tool/main.py:142-149 | the constructor's state awaits no release, holds no capture, and satisfies every invariant |
| Gesture.ClickDown | src/scroll_tool/main.py:151-171 | a press is taken iff it is strictly inside the ring or strictly inside the close button; a ring press starts a scroll-wheel drag with drag angle = previous angle = the press angle and the press position recorded, and sets capture and the click-through style; a close-button press changes only the type, the awaited release and the capture; any other press changes nothing; it preserves well-formedness, capture-held-iff-awaiting, and (with the dead zone inside the hole) the dead-zone invariant |
| Gesture.ClickUp | src/scroll_tool/main.py:173-185 | a release with nothing awaited is ignored and changes nothing; one over the close button exits, whatever the interaction type, releasing only the capture; otherwise it restores the style, stops awaiting and releases the capture; the interaction type is never reset |
| Gesture.Nudges | src/scroll_tool/main.py:207-217 | at most one nudge, always +1 or -1; a drop of more than π emits -1, a rise of more than π emits +1; otherwise a higher segment emits -1, a lower one +1, the same segment nothing, so the sum is the segment difference clamped to one notch |
| Gesture.Motion | src/scroll_tool/main.py:187-222 | a move always records whether the pointer is over the close button; with no awaited release, a non-scroll-wheel interaction or the pointer inside the dead zone it changes nothing else and emits nothing; a processed move sets drag angle = previous angle = the new angle and records the position (the wrap extrapolation is overwritten); when the last position is strictly inside the dead zone the previous angle is reset to the new one and nothing is emitted, otherwise the emitted nudges are exactly `Nudges(previous angle, angle)`; it preserves all the invariants |
| Gesture.DragEmitsSegmentDifference | src/scroll_tool/main.py:207-221 | during a drag outside the dead zone in steps of at most half a turn and at most one segment, the nudges sum to the starting segment minus the final segment, and the drag angle ends at the last sample's angle |
| Gesture.FullTurnEmitsOneNudgePerSegment | src/scroll_tool/main.py:214-217 | a forward sweep from angle 0 to 2π in such steps nets exactly -nDivisions nudges |
| Gesture.DeadZoneReentryComparesWithLastAngle | src/scroll_tool/main.py:200-205 | a move inside the dead zone emits nothing and keeps the previous angle and position, and the next move outside is compared with that kept angle |
| Gesture.PressInDeadZoneSwallowsFirstMove | src/scroll_tool/main.py:200-205 | a ring press inside the dead zone (possible when the dead zone reaches beyond the hole) makes the first move outside the dead zone emit nothing and record its own angle and position |
| Gesture.PressOnRingStartsClear | src/scroll_tool/main.py:157-160 | with the dead zone inside the hole, a ring press starts a drag whose recorded position is outside the dead zone |
| Gesture.ScrollDragReleasedOnCloseButtonExits | src/scroll_tool/main.py:177-180 | a ring press, a move onto the close button and a release exit the program |
| Gesture.CloseButtonPressMoveRelease | src/scroll_tool/main.py:165-185 | a close-button press followed by a move off the button and a release ends the gesture without exiting; a move onto the button before the release exits |
| WheelMessage.WParam | src/scroll_tool/main.py:225-226 | `(WHEEL_DELTA*n) << 16` has zero low 16 bits and the delta `120*n` above them |
| WheelMessage.LParam | src/scroll_tool/main.py:228-229 | `(y << 16)` OR `(x & 0xFFFF)` keeps x's low 16 bits below and y above them: its remainder mod 65536 is x's and its floored quotient is y, for every y |
| WheelMessage.WheelDeltaRoundTrip | src/scroll_tool/main.py:225-226 | the receiver's signed high word of wParam gives back `120*n` whenever that fits in 16 signed bits |
| WheelMessage.PositionRoundTrip | src/scroll_tool/main.py:228-229 | the receiver's signed low and high words of lParam give back x and y whenever each fits in 16 signed bits |
| WheelMessage.NudgeMessageRoundTrip | src/scroll_tool/main.py:225-229 | every nudge the gesture emits (+1 or -1) is read back as one notch in that direction, at the scroll position |
| Shading.FloatMod | src/scroll_tool/main.py:285 | the floored remainder `t - m*floor(t/m)` lies in [0, m) |
| Shading.FloatModPeriodic | src/scroll_tool/main.py:285 | adding whole turns to an angle does not change its normalised value |
| Shading.StripeParity | src/scroll_tool/main.py:271 | `t % 2 < 1` holds exactly when floor(t) is even |
| Shading.BaseColorByStripe | src/scroll_tool/main.py:270-272 | before the selector, a pixel has the second background colour exactly when its segment is even and it is outside the close button; every other pixel, close-button pixels included, has the first |
| Shading.SelectorOffset | src/scroll_tool/main.py:284-285 | the normalised selector angle lies in [0, 2π) |
| Shading.SelectorAroundDragAngle | src/scroll_tool/main.py:284-289 | the selector covers a pixel exactly when the pixel's angle, shifted by a whole number of turns, lies strictly within half the selector's size of the drag angle, and the pixel is strictly inside the selector's radial band |
| Shading.PixelColor | src/scroll_tool/main.py:281-292 | a pixel gets the selector colour iff a scroll-wheel drag is under way and the pixel is in the selector mask; otherwise it keeps its background colour |
| Shading.AlphaLevel | src/scroll_tool/main.py:274-279 | the alpha level, before the byte cast, stays within [0, 255] |
| Shading.PixelAlpha | src/scroll_tool/main.py:274-279 | the truncated alpha is a byte |
| Shading.AlphaByRegion | src/scroll_tool/main.py:274-279 | alpha is 0 outside ring and hole, 255 in the ring (191 on its edge), 1 in the hole, and 100 or 50 on the close button as it is hovered or not (75 or 37 on its edge) |
| Shading.SelectorBandInRing | src/scroll_tool/main.py:104-106 | with non-negative margins, the selector's radial band lies inside the ring |
| Shading.SelectorOnOpaqueRing | src/scroll_tool/main.py:286-292 | selector pixels are ring pixels with alpha 255 or 191: the selector changes colour only where the ring is opaque and never changes alpha |
| ScrollTool.PixelSqDist | src/scroll_tool/main.py:118-120 | a pixel's squared distance from the centre is never negative |
| ScrollTool.ScrollToolFrame.constructor | src/scroll_tool/main.py:98-149 | the frame starts with the derived geometry, the given angle field and scroll position, and the initial interaction state |
| ScrollTool.ScrollToolFrame.OnClickDown | src/scroll_tool/main.py:151-171 | the new fields are `ClickDown` of the old ones; the result says whether the press was taken; the frame invariant is kept |
| ScrollTool.ScrollToolFrame.OnClickUp | src/scroll_tool/main.py:173-185 | the new fields and the outcome are `ClickUp` of the old fields; the frame invariant is kept |
| ScrollTool.ScrollToolFrame.OnMotion | src/scroll_tool/main.py:187-222 | the new fields and the emitted nudges are `Motion` of the old fields, including the extrapolated drag angle that is then overwritten; the frame invariant is kept |
| ScrollTool.ScrollToolFrame.ScrollWheelNudge | src/scroll_tool/main.py:224-229 | the posted wParam has the delta above zero low bits, and lParam carries the scroll position's x in the low word and y above it |
| ScrollTool.ScrollToolFrame.Paint | src/scroll_tool/main.py:256-297 | fresh buffers with one entry per pixel, each holding that pixel's `PixelColor` and `PixelAlpha` for the current state |

## Left out

- Window and OS plumbing is not modelled. This covers wx frame creation, event binding, `Refresh`, the window-style calls, `UpdateLayeredWindow` and its error print, `PostMessage`, `get_mouse_position_in_window` and `show_frame`. All of it is I/O or foreign calls. Capture and the click-through style are kept as booleans, and `exit()` is the `Exit` outcome. What the event loop then does is not modelled.
- `atan2`, numpy's π and IEEE float rounding are not modelled. Angles are inputs in [0, 2π], π is a fixed rational, and all arithmetic is exact.
- numpy's vectorised machinery is not modelled: `mgrid`, `where`, `repeat`, the boolean-mask assignments, and the wx image and bitmap built from the buffers. The constructor's stored mask arrays are computed per pixel instead (same values). The paint handler's whole-array passes become one loop that applies the same overwrites to each pixel in the same order.
- Non-square windows are not modelled. The masks have shape (w, h) but the buffers have shape (h, w), so only a square window works. The model has a single `size`.
- The second `case ScrollToolInteractionType.SCROLL_WHEEL` in the paint handler is not modelled. It repeats an earlier pattern and can never run.
- The timer, the time fields, `last_click_pos` and `total_windings` are not modelled. No logic reads them.
- A segment count of zero is excluded by `Geometry.Derive`'s precondition, because the constructor divides by it.
- The colour buffer's cast to bytes is not modelled. Every colour component is already below 256.
- `|` in the lParam packing is modelled as addition. `WheelMessage.LParam` states what the OR yields: the result's remainder mod 65536 is x's low 16 bits and its floored quotient by 65536 is y.
- A capture-lost event is not modelled, because the frame has no handler for one.
- Rounded selector corners, a ring border band and a close-button colour are not modelled, because this code does not have them.
