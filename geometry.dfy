/**
  Scene geometry of the timeline: clip rectangles, track rows, and the
  collision query that the clip box runs after each tentative `setRect`.
  The scene's `collidingItems()` is replaced by a sequence of the other clip
  rectangles, in the order the scene would report them; the first one that
  overlaps is the one the clip box reacts to.
*/
module Geometry {

  /** A clip box on the timeline. The clamping rules of the clip box can leave
      the width negative, so nothing here assumes it is positive. */
  datatype Rect = Rect(x: int, y: int, width: int, height: int) {
    /** `x + width`: the right edge for a non-negative width. */
    function Right(): int { x + width }
    function Bottom(): int { y + height }
  }

  /** Height of one track row in scene units. */
  const TrackHeight: int := 50

  /** The track row of a scene y, as `(int) y / 50` computes it in C++:
      integer division truncates toward zero, so rows -49 .. 49 all map to 0. */
  function TrackOf(y: int): (t: int)
    ensures 0 <= y ==> 0 <= t && TrackHeight * t <= y < TrackHeight * t + TrackHeight
    ensures y < 0 ==> t <= 0 && TrackHeight * t - TrackHeight < y <= TrackHeight * t
  {
    if y >= 0 then y / TrackHeight else -((-y) / TrackHeight)
  }

  /** Lower and upper end of the interval spanned by `start` and `start + length`. */
  function Low(start: int, length: int): int { if length < 0 then start + length else start }
  function High(start: int, length: int): int { if length < 0 then start else start + length }

  /** Two spans meet when neither is empty and each starts before the other ends;
      this is how a Qt rectangle intersection test treats one axis. */
  predicate SpansMeet(s1: int, l1: int, s2: int, l2: int)
  {
    l1 != 0 && l2 != 0 && Low(s1, l1) < High(s2, l2) && Low(s2, l2) < High(s1, l1)
  }

  /** The interiors of two rectangles intersect. A rectangle without width or
      height meets nothing. */
  predicate Overlaps(a: Rect, b: Rect)
    ensures Overlaps(a, b) ==> a.width != 0 && a.height != 0 && b.width != 0 && b.height != 0
  {
    SpansMeet(a.x, a.width, b.x, b.width) && SpansMeet(a.y, a.height, b.y, b.height)
  }

  /** For rectangles with positive sizes the overlap test is the usual
      half-open interval test on both axes. */
  lemma OverlapsPositive(a: Rect, b: Rect)
    requires a.width > 0 && a.height > 0 && b.width > 0 && b.height > 0
    ensures Overlaps(a, b) <==>
      a.x < b.Right() && b.x < a.Right() && a.y < b.Bottom() && b.y < a.Bottom()
  {
  }

  /** Index of the first rectangle of `others` that overlaps `r`, or `|others|`
      when none does. */
  function FirstOverlap(r: Rect, others: seq<Rect>): (k: nat)
    ensures k <= |others|
    ensures k < |others| ==> Overlaps(r, others[k])
    ensures forall j :: 0 <= j < k ==> !Overlaps(r, others[j])
  {
    if others == [] then 0
    else if Overlaps(r, others[0]) then 0
    else 1 + FirstOverlap(r, others[1..])
  }

  /** The loop over `collidingItems()` that stops at the first clip hit
      (src/clipitem.cpp:114-135, 157-167, 181-190). */
  method FirstCollision(r: Rect, others: seq<Rect>) returns (k: nat)
    ensures k <= |others|
    ensures k < |others| ==> Overlaps(r, others[k])
    ensures forall j :: 0 <= j < k ==> !Overlaps(r, others[j])
    ensures k == FirstOverlap(r, others)
  {
    k := 0;
    while k < |others| && !Overlaps(r, others[k])
      invariant k <= |others|
      invariant forall j :: 0 <= j < k ==> !Overlaps(r, others[j])
    {
      k := k + 1;
    }
  }

  /** A box whose left edge sits on the right edge of a neighbour, or whose
      right edge sits on the neighbour's left edge, does not overlap it. */
  lemma TouchingDoesNotOverlap(a: Rect, b: Rect)
    requires a.width > 0 && b.width > 0
    requires a.x == b.Right() || a.Right() == b.x
    ensures !Overlaps(a, b)
  {
  }
}
