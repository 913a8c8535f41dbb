# Timeline clip box and colour strings of a video editor

This project models two pieces of logic of a non-linear video editor.

**The timeline clip box** (`ClipItem`, src/clipitem.cpp) is one clip drawn as a
rectangle on a multi-track timeline. A mouse press classifies the pointer
against the box's edges. It starts one of three gestures: drag the body,
resize the left edge, or resize the right edge. Each mouse move applies that
gesture's clamping rule:
- a left-edge resize also moves the crop start, the offset into the source media;
- a right-edge resize is capped by the clip's maximum duration;
- a drag snaps the box to 50-unit track rows.

One collision pass then settles against the first other clip the new rectangle
overlaps. A release ends the gesture.

**The colour codec** (src/effectstack/widgets/choosecolorwidget.cpp) turns
colour parameter text into a colour and back:
- `stringToColor` reads `0xRRGGBBAA`, `#AARRGGBB` or hands the text to the
  toolkit's colour-name parser;
- `colorToString` always writes `0x` and eight lower-case hex digits, with `ff`
  as alpha when the alpha channel is off;
- the colour widget keeps a colour and an alpha-enabled flag, and writes
  them back as text.

Files:
- `geometry.dfy` (module `Geometry`): rectangles, track rows, overlap, and the
  first-collision search.
- `clipitem.dfy` (module `Timeline`): the gesture rules as functions, and the
  class `ClipItem` whose event handlers are proved against them.
- `colorcodec.dfy` (module `ColorCodec`): hex parsing, the 32-bit shifts and
  masks, `StringToColor`, `ColorToString` and their round trips.
- `choosecolorwidget.dfy` (module `ColorWidget`): the class `ChooseColorWidget`.

Modelling choices:
- Coordinates are integers. The move handler truncates the pointer x to an
  int. Track rows come from C++ integer division, which truncates toward zero;
  `TrackOf` writes that out, so it differs from Dafny's `/` for negative y.
- The scene's `collidingItems()` becomes a sequence of the other clips'
  rectangles, in the scene's order. Two rectangles collide when their
  interiors intersect, with negative sizes normalised and empty rectangles
  meeting nothing, as a Qt rectangle intersection test does. As in the code,
  clips are not filtered by track row.
- `toUInt(&ok, 16)` accepts an optional `0x`/`0X` prefix and then only hex
  digits, with a value below 2^32. Anything else reads as 0.
- The unsigned value is stored into a signed 32-bit `int`. `ToInt32` writes
  that conversion out, and `ShiftMask` writes out an arithmetic shift plus
  `& 0xff`.
- The toolkit's colour-name parser is a function parameter `named`.

The model follows the code, with one exception: the corrected left edge recorded under "## Findings". In particular, the code does not keep the following invariants, and neither does the model:
- The code keeps no duration at 2 or more: a left-edge resize can leave
  width -2, and a collision can leave any width.
- The code keeps no clip free of overlaps. Only the first colliding clip is
  settled.
- On a collision during a track change, the code puts the box back on its old
  rectangle. It does not keep the new row.
- After a left-edge resize, the crop start has moved by the requested edge
  movement, not by the final one after the collision.

## Model

| member | source | states |
|---|---|---|
| `Geometry.TrackOf` | src/clipitem.cpp:198-199 | the track row is y divided by 50 truncated toward zero: 50·t ≤ y < 50·t + 50 for y ≥ 0, and 50·t − 50 < y ≤ 50·t for y < 0 |
| `Geometry.Overlaps` | src/clipitem.cpp:113 | the collision test: the interiors of the two rectangles intersect, with negative sizes normalised. A rectangle of zero width or height collides with nothing |
| `Geometry.FirstOverlap` | src/clipitem.cpp:113-116 | the clip the collision pass reacts to is the first one in scene order that overlaps the tentative rectangle: it overlaps, and no earlier one does; `|others|` means none |
| `Geometry.FirstCollision` | src/clipitem.cpp:114-135 | the loop that breaks on the first clip hit returns exactly that first overlapping index |
| `Timeline.OperationMode` | src/clipitem.cpp:81-88 | a press within 6 units of the left edge gives the left-edge resize (1). Otherwise, within 6 units of the right edge gives the right-edge resize (2). Otherwise it is a drag (0) |
| `Timeline.LeftEdgeWins` | src/clipitem.cpp:81-88 | when the pointer is near both edges, the left-edge resize wins |
| `Timeline.WideBoxZonesDisjoint` | src/clipitem.cpp:81-88 | on a box at least 12 wide, the right edge is grabbed exactly when the pointer is near it, and a drag starts exactly when it is near neither edge |
| `Timeline.ResizeStartTargetAsWritten` | src/clipitem.cpp:150-151 | the left edge as the code computes it. It is the pointer when the pointer lies in `x − cropStart` .. right edge (right edge excluded). It is `x − cropStart` when the pointer is left of that and that is left of the right edge. It is right edge + 2 when the pointer or `x − cropStart` is at or past the right edge. It stays at or right of `x − cropStart` if and only if width ≥ −2 − cropStart |
| `Timeline.ResizeStartCropCanGoNegative` | src/clipitem.cpp:150-152 | a drag and a left-edge resize, each settling only the first clip hit, leave a box at 300 of width −140. The next left-edge move as written (`ResizeStartStepAsWritten`, pointer at 400) pins the edge at 162 and leaves crop start −138 |
| `Timeline.ResizeStartTarget` | src/clipitem.cpp:150-152 | the corrected left edge is never left of `x − cropStart`. It equals the as-written edge on every box of width ≥ −2 − cropStart. It follows the pointer when that is allowed, stops at `x − cropStart` (crop start 0) when the pointer is further left, and when the pointer or `x − cropStart` is at or past the right edge it is right edge + 2, or `x − cropStart` on narrower boxes |
| `Timeline.ResizeStartTentative` | src/clipitem.cpp:154 | the rectangle set before the collision pass keeps the right edge, y and height, and has the requested left edge |
| `Timeline.ResizeStartSettle` | src/clipitem.cpp:152-165 | for a chosen left edge: crop start moves by exactly the edge movement, and the right edge, y and height stay. Without a collision the box spans the edge .. the right edge; with one, its left edge is the colliding clip's right edge |
| `Timeline.ResizeStartStepAsWritten` | src/clipitem.cpp:149-166 | the mode-1 move as the code performs it: crop start moves by the as-written edge movement, and the right edge, y and height stay. Crop start stays ≥ 0 on every box of width ≥ −2 − cropStart and becomes negative on every narrower one |
| `Timeline.ResizeStartStep` | src/clipitem.cpp:149-166 | the mode-1 move with the corrected edge from "## Findings": crop start stays ≥ 0 and shifts by exactly the requested (pre-collision) edge movement. It keeps the right edge, y and height. Without a collision the box is the tentative one; with one, its left edge is the colliding clip's right edge |
| `Timeline.ResizeStartCorrectionAgrees` | src/clipitem.cpp:149-166 | on every box of width ≥ −2 − cropStart the corrected move equals the move as written |
| `Timeline.ResizeStartMinimumWidth` | src/clipitem.cpp:151-154 | when the requested width would fall below 1 and nothing collides, the box ends at right edge + 2 with width −2 |
| `Timeline.ResizeStartSourceOrigin` | src/clipitem.cpp:150-164 | `x − cropStart` is unchanged by a left-edge move that hits nothing. A collision shifts it by the collision correction |
| `Timeline.ResizeStartCollisionKeepsRequestedCrop` | src/clipitem.cpp:152-164 | box at 100, width 50, crop 20, pointer at 85, clip over 60..90: the box becomes 90..150 and the crop start is 5 |
| `Timeline.ResizeStartClearsNeighbour` | src/clipitem.cpp:156-166 | after the collision, the box no longer overlaps the clip it hit, if that clip has positive width and ends at or before the box's right edge |
| `Timeline.ResizeEndWidth` | src/clipitem.cpp:175-177 | the requested width is the pointer distance when that lies in 1..max. It is the maximum when the distance exceeds it. Below 1 it is 2, or the maximum when that is under 2. It is never above the maximum, and at least 1 when the maximum is ≥ 1 |
| `Timeline.ResizeEndStep` | src/clipitem.cpp:174-190 | a right-edge move keeps x, y and height. Without a collision the width is the requested one; with one, the right edge is the colliding clip's left edge |
| `Timeline.ResizeEndBounded` | src/clipitem.cpp:175-178 | without a collision the new width lies between 1 and the maximum duration |
| `Timeline.ResizeEndClearsNeighbour` | src/clipitem.cpp:180-189 | after the collision, the box no longer overlaps the clip it hit, if that clip has positive width and starts right of the box's left edge |
| `Timeline.DragOffset` | src/clipitem.cpp:198-201 | the vertical offset is 50 × (pointer track − box track), and it is 0 exactly when the track is unchanged |
| `Timeline.MoveToRect` | src/clipitem.cpp:107-135 | `moveTo` never changes width or height. Without a collision the box goes to (nx, y + offset). A collision during a track change restores the original rectangle. After any collision the box is back on its own row |
| `Timeline.SameTrackCollision` | src/clipitem.cpp:118-133 | on a same-track collision: moving left puts the left edge on the clip's right edge; moving right puts the right edge on the clip's left edge; no horizontal move keeps the original box. With positive widths, a box that moved ends touching the clip, not overlapping it |
| `Timeline.DragWithinTrackKeepsRow` | src/clipitem.cpp:198-202 | a drag whose pointer stays on the box's track never changes y |
| `Timeline.DragFollowsPointer` | src/clipitem.cpp:198-202 | a same-track drag into free space, with grab offset `px0 − x`, moves the left edge by exactly the pointer's travel |
| `Timeline.ClipItem.constructor` | src/clipitem.cpp:30-31 | a new item has mode 0, grab offset 0, crop start 0, the given rectangle and maximum duration |
| `Timeline.ClipItem.MousePress` | src/clipitem.cpp:91-98 | press sets the mode to the classification, and records the grab offset `px − x` only in mode 0. It changes nothing else |
| `Timeline.ClipItem.MouseRelease` | src/clipitem.cpp:101-105 | release sets mode 0 and changes nothing else |
| `Timeline.ClipItem.MoveTo` | src/clipitem.cpp:107-141 | the new rectangle is `MoveToRect` of the old one, with the same width and height |
| `Timeline.ClipItem.MouseMove` | src/clipitem.cpp:144-204 | by mode, the new rectangle and crop start are `ResizeStartStep` (the corrected mode-1 rule from "## Findings"), `ResizeEndStep` or the drag's `MoveToRect`. The mode and grab offset do not change, and crop start ≥ 0 is kept |
| `Timeline.ClipItem.MoveStartEdge` | src/clipitem.cpp:149-167 | the code of lines 149-166 plus the re-clamp from "## Findings". It keeps crop start ≥ 0, and the new rectangle and crop start are exactly the corrected `ResizeStartStep` of the old ones |
| `Timeline.ClipItem.MoveEndEdge` | src/clipitem.cpp:174-190 | the new rectangle in mode 2 is exactly `ResizeEndStep` of the old one, under the item's maximum duration |
| `Timeline.ClipItem.DragBody` | src/clipitem.cpp:198-202 | the new rectangle in mode 0 is `MoveToRect` of the old one. The target left edge keeps the grab offset under the pointer, and the offset is `DragOffset` |
| `Timeline.PressMoveRelease` | src/clipitem.cpp:91-105 | a press, a move (mode 1 with the corrected rule from "## Findings") and a release leave the item idle with crop start ≥ 0. A body drag along the track into free space moves the box by the pointer's travel |
| `ColorCodec.ToHex` | src/effectstack/widgets/choosecolorwidget.cpp:73-77 | the stream's base-16 digits of a value are lower-case hex, and their value is that value. Below 16 it is one digit, below 256 at most two |
| `ColorCodec.HexField` | src/effectstack/widgets/choosecolorwidget.cpp:73-77 | each component is written as exactly two lower-case hex digits, right-aligned and zero-padded, whose value is the component |
| `ColorCodec.HexBody` | src/effectstack/widgets/choosecolorwidget.cpp:37 | the digits the parse reads are the text after a leading `0x` or `0X`, and the whole text when there is no such prefix |
| `ColorCodec.ToUInt` | src/effectstack/widgets/choosecolorwidget.cpp:37 | non-empty hex digits (after an optional `0x`) whose value is below 2^32 parse to that value. Digits whose value is 2^32 or more give 0, and so do empty or non-hex digits |
| `ColorCodec.ToUIntEightDigits` | src/effectstack/widgets/choosecolorwidget.cpp:35-37 | `0x` followed by eight hex digits parses to exactly their value |
| `ColorCodec.ToInt32` | src/effectstack/widgets/choosecolorwidget.cpp:33-37 | storing the unsigned value in a 32-bit int gives a value in the int range that is congruent to it modulo 2^32 |
| `ColorCodec.ShiftMask` | src/effectstack/widgets/choosecolorwidget.cpp:38-41 | `(v >> n) & 0xff` is the byte of `v` in the place of 2^n: `v` is a higher part times 2^(n+8), plus that byte times 2^n, plus a remainder below 2^n |
| `ColorCodec.BytesOfInt32` | src/effectstack/widgets/choosecolorwidget.cpp:38-41 | shifting and masking the signed int gives back the four bytes of the unsigned value, with or without the top bit set |
| `ColorCodec.Int32Bytes` | src/effectstack/widgets/choosecolorwidget.cpp:38-41 | the four shifted-and-masked bytes of any signed 32-bit int make up the unsigned value it holds |
| `ColorCodec.DecodeRgba` | src/effectstack/widgets/choosecolorwidget.cpp:38-41 | r, g, b, a are bytes 3, 2, 1, 0 of the stored value: r·2^24 + g·2^16 + b·2^8 + a equals it modulo 2^32 |
| `ColorCodec.DecodeArgb` | src/effectstack/widgets/choosecolorwidget.cpp:51-54 | alpha is byte 3 and r, g, b are bytes 2, 1, 0 of the stored value, modulo 2^32 |
| `ColorCodec.ReplaceHash` | src/effectstack/widgets/choosecolorwidget.cpp:49 | no `#` is left. A text with no `#` is unchanged; a single `#` becomes `0x` and any other single character stays; a text that starts with its only `#` becomes `0x` plus the rest |
| `ColorCodec.ReplaceHashConcat` | src/effectstack/widgets/choosecolorwidget.cpp:49 | the replacement works character by character: it distributes over concatenation, which together with the one-character cases fixes it on every text |
| `ColorCodec.StringToColor` | src/effectstack/widgets/choosecolorwidget.cpp:29-66 | `0x` and length 10 decodes RGBA from the parsed value. Other `0x` texts go to the name parser as `#` plus the rest. Otherwise length 9 decodes ARGB after `#`→`0x`, length 8 goes to the name parser after `#`→`0x`, and anything else goes to it unchanged |
| `ColorCodec.StringToColorRgba` | src/effectstack/widgets/choosecolorwidget.cpp:34-41 | with eight hex digits after `0x`, red, green, blue and alpha are the values of the four digit pairs |
| `ColorCodec.StringToColorArgb` | src/effectstack/widgets/choosecolorwidget.cpp:47-54 | with eight hex digits after `#`, alpha, red, green and blue are the four bytes of the digits' value, top byte first |
| `ColorCodec.StringToColorMalformed` | src/effectstack/widgets/choosecolorwidget.cpp:35-41 | ten characters starting with `0x` that are not all hex give transparent black (0, 0, 0, 0) |
| `ColorCodec.ColorToString` | src/effectstack/widgets/choosecolorwidget.cpp:68-85 | the output is `0x` followed by exactly 8 lower-case hex digits. The pairs' values are r, g, b and then alpha, or 255 with the text `ff` when alpha is off |
| `ColorCodec.RoundTrip` | src/effectstack/widgets/choosecolorwidget.cpp:68-84 | reading a written colour gives the colour back. Without alpha it gives the same r, g, b with alpha 255 |
| `ColorCodec.HexFieldOfPair` | src/effectstack/widgets/choosecolorwidget.cpp:73-77 | two lower-case hex digits are written back as they were read |
| `ColorCodec.CanonicalRoundTrip` | src/effectstack/widgets/choosecolorwidget.cpp:34-41 | writing, with alpha, the colour read from a lower-case `0xRRGGBBAA` gives back the same text |
| `ColorWidget.ChooseColorWidget.constructor` | src/effectstack/widgets/choosecolorwidget.cpp:101-104 | the button starts with the parameter text read as a colour. Its alpha channel is enabled exactly when asked |
| `ColorWidget.ChooseColorWidget.GetColor` | src/effectstack/widgets/choosecolorwidget.cpp:126-130 | the text is `colorToString` of the button's colour. Its alpha pair is the real alpha only when the alpha channel is enabled, and 255 otherwise |
| `ColorWidget.ChooseColorWidget.SetColor` | src/effectstack/widgets/choosecolorwidget.cpp:132-135 | the button takes the colour, and the alpha setting stays |
| `ColorWidget.SetThenGet` | src/effectstack/widgets/choosecolorwidget.cpp:126-135 | `setColor` followed by `getColor` yields `colorToString` of that colour with the widget's alpha setting |

## Left out

- `ClipItem::paint`, the label created and centred in the constructor, and the tooltip and item flags: drawing and font metrics.
- Moving the child items (`moveBy`) in `moveTo` and `mouseMoveEvent`: they are toolkit child items moved by floating-point halves.
- The accessors `type`, `clipType`, `clipName`, `clipProducer` and `maxDuration`, and the fields they return, other than the maximum duration. They only read back constructor arguments. The type tag 70000 is taken as already filtered: the sequence of other clips holds only clip items.
- `m_cropDuration`: it is set to the maximum duration in the constructor and never changed by the code modelled here.
- The pointer is an integer point. The press handler reads item coordinates and the move handler scene coordinates; the model assumes they coincide, since the item is never repositioned. Fractional pointer positions at a press are not modelled.
- Passing events on to the base class (`QGraphicsRectItem::mousePressEvent`), `kDebug` logging, and the commented-out `CustomTrackView` handlers.
- The scene's collision query itself: its use of item shapes and pens, and its ordering. The model takes the other clips' rectangles, in order, as input.
- src/kdenlivedoc.h declares the project document: XML tree, undo stack, autosave and renderer. It has no bodies and is not part of this model.
- The toolkit's colour-name parser (`setNamedColor`), including what it does with invalid names. It is a function parameter.
- `ColorCodec.StringToColor`: dispatches on the number of characters, while `QString::length()` counts UTF-16 code units. A text holding a character outside the Basic Multilingual Plane is therefore dispatched on a different length. For example, `#1234567` followed by U+1F600 is 9 characters here and is decoded as `#AARRGGBB` (giving 0, 0, 0, 0), but it is 10 units in the code, which hands it to the name parser.
- `ColorCodec.ToUInt`: does not accept the surrounding white space or the leading `+` that the toolkit's number parser tolerates. Such texts read as 0 here.
- The `ChooseColorWidget` layout, the colour picker, the signal connections and `slotColorModified`. That slot sets the button's colour like `setColor`, only with signals blocked.

## Findings

| source | as written | input that shows it | evidently intended | confidence | as-written member | corrected member |
|---|---|---|---|---|---|---|
| src/clipitem.cpp:150-152 | The width pin on line 151 runs after the crop clamp on line 150. It can move the left edge back left of `x − cropStart`, and line 152 then makes the crop start negative | Drag a box of width 50 right to 115 past clips 160..170 and 140..300: it stops at 110, still over the second clip. Resize its left edge to 105: it lands at 300 with width −140. Then resize the left edge to 400: the edge is pinned at 162, and the crop start goes from 0 to −138 | The crop start never becomes negative. The crop clamp also holds for the pinned edge. `ClipItem.MoveStartEdge` applies it again after the pin | not executed; medium | `Timeline.ResizeStartCropCanGoNegative` | `Timeline.ResizeStartTarget` |
