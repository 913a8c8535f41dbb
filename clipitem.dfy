/**
  One clip on the timeline (`ClipItem`, src/clipitem.cpp): a rectangle the
  user drags along and across tracks, or resizes by its left or right edge.
  A press classifies the pointer against the box edges, a move applies one of
  three clamping rules followed by one collision pass against the first
  overlapping clip, and a release ends the gesture.

  Coordinates are integers: the move handler truncates the pointer x to an
  int, and tracks are integer rows of 50 units. The other clips of the scene
  are passed in as a sequence of rectangles (see module Geometry).
*/
module Timeline {
  import opened Geometry

  /** `m_resizeMode`: 0 drags the body, 1 resizes the left edge, 2 the right edge. */
  datatype Mode = Drag | ResizeStart | ResizeEnd

  /** A pointer closer than this to an edge grabs that edge. */
  const EdgeTolerance: int := 6

  function Distance(a: int, b: int): nat
  {
    if a < b then b - a else a - b
  }

  /** `operationMode`: which gesture a press at scene x `px` starts. The left
      edge is tested first, so it wins when the pointer is near both edges. */
  function OperationMode(r: Rect, px: int): (m: Mode)
    ensures m == ResizeStart <==> r.x - EdgeTolerance < px < r.x + EdgeTolerance
    ensures m == ResizeEnd <==>
      !(r.x - EdgeTolerance < px < r.x + EdgeTolerance) &&
      r.Right() - EdgeTolerance < px < r.Right() + EdgeTolerance
  {
    if Distance(px, r.x) < EdgeTolerance then ResizeStart
    else if Distance(px, r.Right()) < EdgeTolerance then ResizeEnd
    else Drag
  }

  /** On a narrow box both edge zones can hold the pointer; the left edge wins. */
  lemma LeftEdgeWins(r: Rect, px: int)
    requires Distance(px, r.x) < EdgeTolerance && Distance(px, r.Right()) < EdgeTolerance
    ensures OperationMode(r, px) == ResizeStart
  {
  }

  /** On a box at least two tolerances wide the edge zones are disjoint, so the
      order of the two tests does not matter: the right edge is grabbed exactly
      when the pointer is near it. */
  lemma WideBoxZonesDisjoint(r: Rect, px: int)
    requires r.width >= 2 * EdgeTolerance
    ensures OperationMode(r, px) == ResizeEnd <==> Distance(px, r.Right()) < EdgeTolerance
    ensures OperationMode(r, px) == Drag <==>
      Distance(px, r.x) >= EdgeTolerance && Distance(px, r.Right()) >= EdgeTolerance
  {
  }

  // ---------------------------------------------------------------------
  // Left-edge resize (mode 1)
  // ---------------------------------------------------------------------

  /** The left edge a left-edge resize asks for before any collision, as
      src/clipitem.cpp:150-151 compute it: the pointer, held back so that the
      crop start cannot become negative, then pinned two units past the right
      edge when the width would fall below 1. The pin can undo the first
      clamp on a box whose width is below `-2 - cropStart`. */
  function ResizeStartTargetAsWritten(r: Rect, cropStart: int, px: int): (moveX: int)
    ensures 1 <= r.Right() - moveX || moveX == r.Right() + 2
    ensures r.x - cropStart <= px < r.Right() ==> moveX == px
    ensures px < r.x - cropStart < r.Right() ==> moveX == r.x - cropStart
    ensures r.Right() <= px || r.Right() <= r.x - cropStart ==> moveX == r.Right() + 2
    ensures r.width >= -2 - cropStart ==> r.x - cropStart <= moveX
    ensures r.width < -2 - cropStart ==> moveX < r.x - cropStart
  {
    var moveX := if cropStart - (r.x - px) < 0 then r.x - cropStart else px;
    if r.x + r.width - moveX < 1 then r.x + r.width + 2 else moveX
  }

  /** A box dragged right into a first clip stops at 110 while still
      overlapping a second clip that covers 140 .. 300; a left-edge resize
      then collides with that second clip, which leaves the box at 300 with
      width -140; the next left-edge resize, with the pointer at 400, is
      pinned at 162 and drives the crop start to -138. */
  lemma ResizeStartCropCanGoNegative()
    ensures MoveToRect(Rect(0, 0, 50, 50), 115, 0, [Rect(160, 0, 10, 50), Rect(140, 0, 160, 50)]) ==
      Rect(110, 0, 50, 50)
    ensures ResizeStartStep(Rect(110, 0, 50, 50), 0, 105, [Rect(160, 0, 10, 50), Rect(140, 0, 160, 50)]) ==
      (Rect(300, 0, -140, 50), 0)
    ensures ResizeStartTargetAsWritten(Rect(300, 0, -140, 50), 0, 400) == 162
    ensures ResizeStartStepAsWritten(Rect(300, 0, -140, 50), 0, 400,
                                     [Rect(160, 0, 10, 50), Rect(140, 0, 160, 50)]).1 == -138
  {
    var others := [Rect(160, 0, 10, 50), Rect(140, 0, 160, 50)];
    assert Overlaps(Rect(115, 0, 50, 50), others[0]);
    assert ResizeStartTentative(Rect(110, 0, 50, 50), 0, 105) == Rect(110, 0, 50, 50);
    assert !Overlaps(Rect(110, 0, 50, 50), others[0]);
    assert Overlaps(Rect(110, 0, 50, 50), others[1]);
    assert FirstOverlap(Rect(110, 0, 50, 50), others) == 1;
  }

  /** The left edge a left-edge resize asks for, with the crop clamp applied
      again after the width pin so that the crop start stays non-negative. On
      every box of width at least `-2 - cropStart` it is the left edge the
      code as written computes. */
  function ResizeStartTarget(r: Rect, cropStart: int, px: int): (moveX: int)
    ensures r.x - cropStart <= moveX
    ensures r.width >= -2 - cropStart ==> moveX == ResizeStartTargetAsWritten(r, cropStart, px)
    ensures 1 <= r.Right() - moveX || moveX == r.Right() + 2 || moveX == r.x - cropStart
    ensures r.x - cropStart <= px < r.Right() ==> moveX == px
    ensures px < r.x - cropStart < r.Right() ==> moveX == r.x - cropStart
    ensures r.Right() <= px || r.Right() <= r.x - cropStart ==>
      moveX == if r.width >= -2 - cropStart then r.Right() + 2 else r.x - cropStart
  {
    var moveX := ResizeStartTargetAsWritten(r, cropStart, px);
    if cropStart - (r.x - moveX) < 0 then r.x - cropStart else moveX
  }

  /** The rectangle set before the collision pass: the new left edge with the
      right edge, y and height of the box. */
  function ResizeStartTentative(r: Rect, cropStart: int, px: int): (t: Rect)
    ensures t.Right() == r.Right() && t.y == r.y && t.height == r.height
    ensures t.x == ResizeStartTarget(r, cropStart, px)
  {
    var moveX := ResizeStartTarget(r, cropStart, px);
    Rect(moveX, r.y, r.x + r.width - moveX, r.height)
  }

  /** Lines 152-165 for a chosen left edge `moveX`: the crop start moves by
      the edge movement, the box is set to span `moveX` .. its right edge, and
      a collision puts the left edge on the right edge of the first clip hit
      without touching the crop start again. */
  function ResizeStartSettle(r: Rect, cropStart: int, moveX: int, others: seq<Rect>): (res: (Rect, int))
    ensures res.1 - cropStart == moveX - r.x
    ensures res.0.Right() == r.Right() && res.0.y == r.y && res.0.height == r.height
    ensures var t := Rect(moveX, r.y, r.Right() - moveX, r.height);
      var k := FirstOverlap(t, others);
      (k == |others| ==> res.0 == t) && (k < |others| ==> res.0.x == others[k].Right())
  {
    var crop := cropStart - (r.x - moveX);
    var t := Rect(moveX, r.y, r.x + r.width - moveX, r.height);
    var k := FirstOverlap(t, others);
    if k < |others| then
      var newStart := others[k].x + others[k].width;
      (Rect(newStart, t.y, t.x + t.width - newStart, t.height), crop)
    else
      (t, crop)
  }

  /** One move in mode 1 exactly as src/clipitem.cpp:149-166 performs it. The
      crop start stays non-negative on every box of width at least
      `-2 - cropStart` and becomes negative on every narrower one. */
  function ResizeStartStepAsWritten(r: Rect, cropStart: int, px: int, others: seq<Rect>): (res: (Rect, int))
    ensures res.1 - cropStart == ResizeStartTargetAsWritten(r, cropStart, px) - r.x
    ensures res.0.Right() == r.Right() && res.0.y == r.y && res.0.height == r.height
    ensures cropStart >= 0 && r.width >= -2 - cropStart ==> res.1 >= 0
    ensures r.width < -2 - cropStart ==> res.1 < 0
  {
    ResizeStartSettle(r, cropStart, ResizeStartTargetAsWritten(r, cropStart, px), others)
  }

  /** One move in mode 1 with the corrected left edge: the new rectangle and
      the new crop start. The crop start moves with the requested left edge
      and never becomes negative; the right edge, y and height stay; a
      collision puts the left edge on the right edge of the first clip hit. */
  function ResizeStartStep(r: Rect, cropStart: int, px: int, others: seq<Rect>): (res: (Rect, int))
    ensures res.1 >= 0
    ensures res.1 - cropStart == ResizeStartTarget(r, cropStart, px) - r.x
    ensures res.0.Right() == r.Right() && res.0.y == r.y && res.0.height == r.height
    ensures var t := ResizeStartTentative(r, cropStart, px);
      var k := FirstOverlap(t, others);
      (k == |others| ==> res.0 == t) && (k < |others| ==> res.0.x == others[k].Right())
  {
    ResizeStartSettle(r, cropStart, ResizeStartTarget(r, cropStart, px), others)
  }

  /** The correction changes nothing on a box of width at least
      `-2 - cropStart`: there the corrected move is the move as written. */
  lemma ResizeStartCorrectionAgrees(r: Rect, cropStart: int, px: int, others: seq<Rect>)
    requires r.width >= -2 - cropStart
    ensures ResizeStartStep(r, cropStart, px, others) == ResizeStartStepAsWritten(r, cropStart, px, others)
  {
  }

  /** When the requested width would fall below 1 and nothing collides, the
      box ends two units to the right of its old right edge with width -2. */
  lemma ResizeStartMinimumWidth(r: Rect, cropStart: int, px: int, others: seq<Rect>)
    requires r.width >= -2 - cropStart
    requires r.Right() <= px || r.Right() <= r.x - cropStart
    requires FirstOverlap(ResizeStartTentative(r, cropStart, px), others) == |others|
    ensures ResizeStartStep(r, cropStart, px, others).0 == Rect(r.Right() + 2, r.y, -2, r.height)
  {
  }

  /** `x - cropStart` is where the clip's source media would begin on the
      timeline. A left-edge resize that hits nothing keeps it; one that hits a
      clip moves the left edge again without updating the crop start, so that
      point shifts by the distance of the collision correction. */
  lemma ResizeStartSourceOrigin(r: Rect, cropStart: int, px: int, others: seq<Rect>)
    ensures var res := ResizeStartStep(r, cropStart, px, others);
      var t := ResizeStartTentative(r, cropStart, px);
      var k := FirstOverlap(t, others);
      (k == |others| ==> res.0.x - res.1 == r.x - cropStart) &&
      (k < |others| ==> res.0.x - res.1 == r.x - cropStart + (others[k].Right() - t.x))
  {
  }

  /** A box at x 100 of width 50 with crop start 20 is resized to x 85 while a
      clip covers 60 .. 90: the left edge lands on 90 but the crop start is 5,
      not the 10 that would keep the media under the box in place. */
  lemma ResizeStartCollisionKeepsRequestedCrop()
    ensures ResizeStartStep(Rect(100, 0, 50, 50), 20, 85, [Rect(60, 0, 30, 50)]) == (Rect(90, 0, 60, 50), 5)
  {
    var t := ResizeStartTentative(Rect(100, 0, 50, 50), 20, 85);
    assert t == Rect(85, 0, 65, 50);
    assert Overlaps(t, Rect(60, 0, 30, 50));
  }

  /** The box no longer overlaps the clip it collided with when that clip has
      a positive width and ends at or before the box's right edge. */
  lemma ResizeStartClearsNeighbour(r: Rect, cropStart: int, px: int, others: seq<Rect>)
    requires var k := FirstOverlap(ResizeStartTentative(r, cropStart, px), others);
      k < |others| && others[k].width > 0 && others[k].Right() <= r.Right()
    ensures var k := FirstOverlap(ResizeStartTentative(r, cropStart, px), others);
      !Overlaps(ResizeStartStep(r, cropStart, px, others).0, others[k])
  {
    var k := FirstOverlap(ResizeStartTentative(r, cropStart, px), others);
    var res := ResizeStartStep(r, cropStart, px, others).0;
    if res.width > 0 {
      TouchingDoesNotOverlap(res, others[k]);
    }
  }

  // ---------------------------------------------------------------------
  // Right-edge resize (mode 2)
  // ---------------------------------------------------------------------

  /** The width a right-edge resize asks for before any collision: the
      distance from the left edge to the pointer, raised to 2 when it is below
      1, then capped at the maximum duration. */
  function ResizeEndWidth(x: int, maxDuration: int, px: int): (w: int)
    ensures w <= maxDuration
    ensures 1 <= maxDuration ==> 1 <= w
    ensures 1 <= px - x <= maxDuration ==> w == px - x
    ensures px - x > maxDuration ==> w == maxDuration
    ensures px - x < 1 ==> w == if 2 <= maxDuration then 2 else maxDuration
    ensures w == px - x || w == 2 || w == maxDuration
  {
    var w := px - x;
    var w := if w < 1 then 2 else w;
    if w > maxDuration then maxDuration else w
  }

  /** One move in mode 2: the left edge, y and height stay; without a
      collision the width is the requested one; a collision makes the right
      edge the left edge of the first clip hit. */
  function ResizeEndStep(r: Rect, maxDuration: int, px: int, others: seq<Rect>): (res: Rect)
    ensures res.x == r.x && res.y == r.y && res.height == r.height
    ensures var t := Rect(r.x, r.y, ResizeEndWidth(r.x, maxDuration, px), r.height);
      var k := FirstOverlap(t, others);
      (k == |others| ==> res == t) && (k < |others| ==> res.Right() == others[k].x)
  {
    var t := Rect(r.x, r.y, ResizeEndWidth(r.x, maxDuration, px), r.height);
    var k := FirstOverlap(t, others);
    if k < |others| then Rect(t.x, t.y, others[k].x - t.x, t.height) else t
  }

  /** Without a collision a right-edge resize keeps the duration between 1 and
      the maximum duration (when that maximum is at least 1). */
  lemma ResizeEndBounded(r: Rect, maxDuration: int, px: int, others: seq<Rect>)
    requires 1 <= maxDuration
    requires FirstOverlap(Rect(r.x, r.y, ResizeEndWidth(r.x, maxDuration, px), r.height), others) == |others|
    ensures 1 <= ResizeEndStep(r, maxDuration, px, others).width <= maxDuration
  {
  }

  /** The box no longer overlaps the clip it collided with when that clip has
      a positive width and starts to the right of the box's left edge. */
  lemma ResizeEndClearsNeighbour(r: Rect, maxDuration: int, px: int, others: seq<Rect>)
    requires var k := FirstOverlap(Rect(r.x, r.y, ResizeEndWidth(r.x, maxDuration, px), r.height), others);
      k < |others| && others[k].width > 0 && r.x < others[k].x
    ensures var k := FirstOverlap(Rect(r.x, r.y, ResizeEndWidth(r.x, maxDuration, px), r.height), others);
      !Overlaps(ResizeEndStep(r, maxDuration, px, others), others[k])
  {
    var k := FirstOverlap(Rect(r.x, r.y, ResizeEndWidth(r.x, maxDuration, px), r.height), others);
    TouchingDoesNotOverlap(ResizeEndStep(r, maxDuration, px, others), others[k]);
  }

  // ---------------------------------------------------------------------
  // Drag (mode 0) and moveTo
  // ---------------------------------------------------------------------

  /** The vertical offset of a drag: whole track rows between the pointer's
      track and the box's track, in scene units. */
  function DragOffset(r: Rect, py: int): (offset: int)
    ensures offset == TrackHeight * (TrackOf(py) - TrackOf(r.y))
    ensures offset == 0 <==> TrackOf(py) == TrackOf(r.y)
  {
    var offset := TrackOf(py) - TrackOf(r.y);
    if offset != 0 then TrackHeight * offset else offset
  }

  /** `moveTo(x, offset)`: the rectangle after moving the box to left edge
      `nx`, `offset` units down. Width and height never change; without a
      collision the box goes where it was sent; a collision during a track
      change puts the box back where it was. */
  function MoveToRect(r: Rect, nx: int, offset: int, others: seq<Rect>): (res: Rect)
    ensures res.width == r.width && res.height == r.height
    ensures var k := FirstOverlap(Rect(nx, r.y + offset, r.width, r.height), others);
      (k == |others| ==> res == Rect(nx, r.y + offset, r.width, r.height)) &&
      (k < |others| && offset != 0 ==> res == r) &&
      (k < |others| ==> res.y == r.y)
  {
    var t := Rect(nx, r.y + offset, r.width, r.height);
    var k := FirstOverlap(t, others);
    if k < |others| then
      var x :=
        if offset != 0 then r.x
        else if nx < r.x then others[k].x + others[k].width
        else if nx > r.x then others[k].x - r.width
        else r.x;
      Rect(x, r.y, r.width, r.height)
    else t
  }

  /** A same-track move that hits a clip: moving left stops at that clip's
      right edge, moving right stops with the box's right edge on that clip's
      left edge, and no horizontal move leaves the box where it was. When both
      widths are positive and the box moved, it ends touching the clip without
      overlapping it. */
  lemma SameTrackCollision(r: Rect, nx: int, others: seq<Rect>)
    requires FirstOverlap(Rect(nx, r.y, r.width, r.height), others) < |others|
    ensures var k := FirstOverlap(Rect(nx, r.y, r.width, r.height), others);
      var res := MoveToRect(r, nx, 0, others);
      (nx < r.x ==> res.x == others[k].Right()) &&
      (nx > r.x ==> res.Right() == others[k].x) &&
      (nx == r.x ==> res == r) &&
      (nx != r.x && r.width > 0 && others[k].width > 0 ==> !Overlaps(res, others[k]))
  {
    var k := FirstOverlap(Rect(nx, r.y, r.width, r.height), others);
    var res := MoveToRect(r, nx, 0, others);
    if nx != r.x && r.width > 0 && others[k].width > 0 {
      TouchingDoesNotOverlap(res, others[k]);
    }
  }

  /** A drag whose pointer stays on the box's track never changes the box's
      y, whatever it collides with. */
  lemma DragWithinTrackKeepsRow(r: Rect, nx: int, py: int, others: seq<Rect>)
    requires TrackOf(py) == TrackOf(r.y)
    ensures MoveToRect(r, nx, DragOffset(r, py), others).y == r.y
  {
  }

  /** A box grabbed `px0 - x` units right of its left edge and dragged along
      its own track into free space follows the pointer: its left edge moves
      by exactly the pointer's horizontal travel. */
  lemma DragFollowsPointer(r: Rect, px0: int, px: int, py: int, others: seq<Rect>)
    requires TrackOf(py) == TrackOf(r.y)
    requires FirstOverlap(Rect(px - (px0 - r.x), r.y, r.width, r.height), others) == |others|
    ensures MoveToRect(r, px - (px0 - r.x), DragOffset(r, py), others) ==
      Rect(r.x + (px - px0), r.y, r.width, r.height)
  {
  }

  // ---------------------------------------------------------------------
  // The clip item
  // ---------------------------------------------------------------------

  class ClipItem {
    var rect: Rect
    var resizeMode: Mode
    var grabPoint: int
    var cropStart: int
    const maxDuration: int

    /** The crop start is never negative. */
    predicate Valid()
      reads this
    {
      cropStart >= 0
    }

    /** A new item: no gesture, no grab offset, no crop. */
    constructor (maxDuration: int, rect: Rect)
      ensures Valid()
      ensures this.rect == rect && this.maxDuration == maxDuration
      ensures resizeMode == Drag && grabPoint == 0 && cropStart == 0
    {
      this.rect := rect;
      this.maxDuration := maxDuration;
      resizeMode := Drag;
      grabPoint := 0;
      cropStart := 0;
    }

    /** `mousePressEvent`: choose the gesture from the press position, and in
        a drag remember how far right of the left edge the box was grabbed. */
    method MousePress(px: int)
      modifies this`resizeMode, this`grabPoint
      ensures resizeMode == OperationMode(rect, px)
      ensures resizeMode == Drag ==> grabPoint == px - rect.x
      ensures resizeMode != Drag ==> grabPoint == old(grabPoint)
    {
      resizeMode := OperationMode(rect, px);
      if resizeMode == Drag {
        grabPoint := px - rect.x;
      }
    }

    /** `mouseReleaseEvent`: the gesture ends; the geometry is left alone. */
    method MouseRelease()
      modifies this`resizeMode
      ensures resizeMode == Drag
    {
      resizeMode := Drag;
    }

    /** `moveTo`: send the box to left edge `nx`, `offset` units down, then
        settle a collision with the first clip hit. */
    method MoveTo(nx: int, offset: int, others: seq<Rect>)
      modifies this`rect
      ensures rect == MoveToRect(old(rect), nx, offset, others)
      ensures rect.width == old(rect).width && rect.height == old(rect).height
    {
      var origX := rect.x;
      var origY := rect.y;
      rect := Rect(nx, origY + offset, rect.width, rect.height);
      var k := FirstCollision(rect, others);
      if k < |others| {
        if offset == 0 {
          var other := others[k];
          if nx < origX {
            origX := other.x + other.width;
          } else if nx > origX {
            origX := other.x - rect.width;
          }
        }
        rect := Rect(origX, origY, rect.width, rect.height);
      }
    }

    /** `mouseMoveEvent` with the pointer at scene (`px`, `py`): apply the
        current gesture's rule, then the collision pass. */
    method MouseMove(px: int, py: int, others: seq<Rect>)
      requires Valid()
      modifies this`rect, this`cropStart
      ensures Valid()
      ensures resizeMode == ResizeStart ==>
        (rect, cropStart) == ResizeStartStep(old(rect), old(cropStart), px, others)
      ensures resizeMode == ResizeEnd ==>
        rect == ResizeEndStep(old(rect), maxDuration, px, others) && cropStart == old(cropStart)
      ensures resizeMode == Drag ==>
        rect == MoveToRect(old(rect), px - grabPoint, DragOffset(old(rect), py), others) &&
        cropStart == old(cropStart)
    {
      if resizeMode == ResizeStart {
        MoveStartEdge(px, others);
      } else if resizeMode == ResizeEnd {
        MoveEndEdge(px, others);
      } else {
        DragBody(px, py, others);
      }
    }

    /** Mode 1 of `mouseMoveEvent`: clamp the requested left edge so the crop
        start stays non-negative and the width at least 1, move the crop start
        with it, then put the left edge on the right edge of the first clip hit. */
    method MoveStartEdge(px: int, others: seq<Rect>)
      requires Valid()
      modifies this`rect, this`cropStart
      ensures Valid()
      ensures (rect, cropStart) == ResizeStartStep(old(rect), old(cropStart), px, others)
    {
      var moveX := px;
      var originalX := rect.x;
      if cropStart - (originalX - moveX) < 0 {
        moveX := originalX - cropStart;
      }
      if originalX + rect.width - moveX < 1 {
        moveX := originalX + rect.width + 2;
      }
      // Corrected: the pin above must not undo the crop clamp.
      if cropStart - (originalX - moveX) < 0 {
        moveX := originalX - cropStart;
      }
      assert moveX == ResizeStartTarget(old(rect), old(cropStart), px);
      cropStart := cropStart - (originalX - moveX);
      rect := Rect(moveX, rect.y, originalX + rect.width - moveX, rect.height);
      assert rect == ResizeStartTentative(old(rect), old(cropStart), px);
      var k := FirstCollision(rect, others);
      if k < |others| {
        var other := others[k];
        var newStart := other.x + other.width;
        rect := Rect(newStart, rect.y, rect.x + rect.width - newStart, rect.height);
      }
    }

    /** Mode 2 of `mouseMoveEvent`: the width reaches the pointer, is raised
        to 2 below 1 and capped at the maximum duration; then the right edge
        goes on the left edge of the first clip hit. */
    method MoveEndEdge(px: int, others: seq<Rect>)
      modifies this`rect
      ensures rect == ResizeEndStep(old(rect), maxDuration, px, others)
    {
      var originalX := rect.x;
      var newWidth := px - originalX;
      if newWidth < 1 {
        newWidth := 2;
      }
      if newWidth > maxDuration {
        newWidth := maxDuration;
      }
      assert newWidth == ResizeEndWidth(originalX, maxDuration, px);
      rect := Rect(originalX, rect.y, newWidth, rect.height);
      var k := FirstCollision(rect, others);
      if k < |others| {
        newWidth := others[k].x - rect.x;
        rect := Rect(rect.x, rect.y, newWidth, rect.height);
      }
    }

    /** Mode 0 of `mouseMoveEvent`: whole track rows between the pointer and
        the box give the vertical offset, and the box is moved to keep its
        grab offset under the pointer. */
    method DragBody(px: int, py: int, others: seq<Rect>)
      modifies this`rect
      ensures rect == MoveToRect(old(rect), px - grabPoint, DragOffset(old(rect), py), others)
    {
      var moveTrack := TrackOf(py);
      var currentTrack := TrackOf(rect.y);
      var offset := moveTrack - currentTrack;
      if offset != 0 {
        offset := TrackHeight * offset;
      }
      MoveTo(px - grabPoint, offset, others);
    }
  }

  /** A full gesture on one item: press, one move, release. The item ends
      idle, with a non-negative crop start, and a body drag along the same
      track into free space moves the box by the pointer's travel. */
  method PressMoveRelease(item: ClipItem, px0: int, px: int, py: int, others: seq<Rect>)
    requires item.Valid()
    modifies item
    ensures item.Valid() && item.resizeMode == Drag
    ensures OperationMode(old(item.rect), px0) == Drag && TrackOf(py) == TrackOf(old(item.rect).y) &&
      FirstOverlap(Rect(old(item.rect).x + (px - px0), old(item.rect).y, old(item.rect).width,
                        old(item.rect).height), others) == |others|
      ==> item.rect == old(item.rect).(x := old(item.rect).x + (px - px0))
  {
    item.MousePress(px0);
    ghost var r := item.rect;
    if item.resizeMode == Drag {
      assert px - item.grabPoint == px - (px0 - r.x);
    }
    item.MouseMove(px, py, others);
    if OperationMode(r, px0) == Drag && TrackOf(py) == TrackOf(r.y) &&
      FirstOverlap(Rect(r.x + (px - px0), r.y, r.width, r.height), others) == |others| {
      DragFollowsPointer(r, px0, px, py, others);
    }
    item.MouseRelease();
  }
}
