/**
 * Pointer interaction on the drawn images: hovering enlarges an image around
 * its own centre and leaving restores the drawn rectangle; a click, once the
 * host's selection manager answers, repaints every image's opacity.
 */
module Interaction {
  import opened Types
  import Emphasis

  function CentreX(r: Rect): real { r.x + r.width / 2.0 }
  function CentreY(r: Rect): real { r.y + r.height / 2.0 }

  /** The grid image at (x, y) as drawn: a square of side `side`. */
  function GridReset(x: real, y: real, side: real): (r: Rect)
    ensures r.x == x && r.y == y && r.width == side && r.height == side
  {
    Rect(x, y, side, side)
  }

  /** The hovered grid image: a tenth of a side larger on every edge. */
  function GridEnlarge(x: real, y: real, side: real): (r: Rect)
    ensures var base := GridReset(x, y, side);
      && CentreX(r) == CentreX(base) && CentreY(r) == CentreY(base)
      && r.width == 1.2 * base.width && r.height == 1.2 * base.height
  {
    Rect(x - side * 0.1, y - side * 0.1, side * 1.2, side * 1.2)
  }

  /** The circle image of centre (x, y) and radius r as drawn: its bounding square. */
  function CircleReset(x: real, y: real, radius: real): (r: Rect)
    ensures CentreX(r) == x && CentreY(r) == y && r.width == 2.0 * radius && r.height == 2.0 * radius
  {
    Rect(x - radius, y - radius, radius * 2.0, radius * 2.0)
  }

  /** The hovered circle image: the square of a circle 1.4 times the radius, same centre. */
  function CircleEnlarge(x: real, y: real, radius: real): (r: Rect)
    ensures var base := CircleReset(x, y, radius);
      && CentreX(r) == CentreX(base) && CentreY(r) == CentreY(base)
      && r.width == 1.4 * base.width && r.height == 1.4 * base.height
  {
    Rect(x - radius * 1.4, y - radius * 1.4, radius * 2.8, radius * 2.8)
  }

  /** `inner` lies inside `outer`. */
  predicate Contains(outer: Rect, inner: Rect)
  {
    outer.x <= inner.x && inner.x + inner.width <= outer.x + outer.width &&
    outer.y <= inner.y && inner.y + inner.height <= outer.y + outer.height
  }

  /** For a non-negative size the hovered image covers the drawn one. */
  lemma EnlargeCoversReset(x: real, y: real, size: real)
    requires size >= 0.0
    ensures Contains(GridEnlarge(x, y, size), GridReset(x, y, size))
    ensures Contains(CircleEnlarge(x, y, size), CircleReset(x, y, size))
  {
  }

  /** The rectangles an image takes while hovered and after the pointer leaves it. */
  datatype Hover = Hover(over: Rect, out: Rect)

  /**
   * The hover handlers installed for a render type: the grid ones, sized by the
   * stored cell side, for "GRID", and the circle ones, sized by the radius, for
   * every other render type.
   */
  function HoverFor(renderType: string, x: real, y: real, gridSide: real, radius: real): (h: Hover)
    ensures renderType == "GRID" ==> h.out == Rect(x, y, gridSide, gridSide)
    ensures renderType != "GRID" ==> h.out == Rect(x - radius, y - radius, 2.0 * radius, 2.0 * radius)
    ensures CentreX(h.over) == CentreX(h.out) && CentreY(h.over) == CentreY(h.out)
    ensures renderType == "GRID" ==> h.over.width == 1.2 * h.out.width && h.over.height == 1.2 * h.out.height
    ensures renderType != "GRID" ==> h.over.width == 1.4 * h.out.width && h.over.height == 1.4 * h.out.height
  {
    if renderType == "GRID" then Hover(GridEnlarge(x, y, gridSide), GridReset(x, y, gridSide))
    else Hover(CircleEnlarge(x, y, radius), CircleReset(x, y, radius))
  }

  /** The opacity of element `j` of `n` after a click on element `clicked` resolved with a non-empty list or not. */
  function Repainted(n: nat, clicked: nat, idsNonEmpty: bool): seq<real>
  {
    seq(n, j => if j == clicked then 1.0 else if idsNonEmpty then 0.5 else 1.0)
  }

  /**
   * The click handler after the selection manager resolved with `ids`: every
   * element takes 0.5 when something is selected and 1.0 otherwise, then the
   * clicked element takes 1.0. Without interactions nothing happens.
   */
  method Click(opacity: array<real>, clicked: nat, allowInteractions: bool, ids: seq<SelectionId>)
    requires clicked < opacity.Length
    modifies opacity
    ensures allowInteractions ==> opacity[..] == Repainted(opacity.Length, clicked, |ids| > 0)
    ensures !allowInteractions ==> opacity[..] == old(opacity[..])
  {
    if !allowInteractions {
      return;
    }
    var all := if |ids| > 0 then 0.5 else 1.0;
    for j := 0 to opacity.Length
      invariant forall k :: 0 <= k < j ==> opacity[k] == all
    {
      opacity[j] := all;
    }
    opacity[clicked] := 1.0;
    assert opacity[..] == Repainted(opacity.Length, clicked, |ids| > 0);
  }

  /**
   * A single-select answer (nothing selected, or exactly the clicked element) is
   * painted as the selection rule would paint it, provided keys are distinct.
   */
  lemma RepaintMatchesSelection(keys: seq<SelectionId>, clicked: nat, ids: seq<SelectionId>, j: nat)
    requires clicked < |keys| && j < |keys|
    requires forall a, b :: 0 <= a < b < |keys| ==> keys[a].key != keys[b].key
    requires ids == [] || ids == [keys[clicked]]
    ensures Repainted(|keys|, clicked, |ids| > 0)[j] == Emphasis.SelectionOpacity(keys[j], ids)
  {
    if ids != [] {
      if j == clicked {
        assert ids[0].key == keys[j].key;
      } else {
        assert !Emphasis.Selected(keys[j], ids) by {
          assert keys[clicked].key != keys[j].key;
        }
      }
    }
  }

  /**
   * A multi-element answer is not painted as the selection rule would: another
   * element that stays selected is dimmed until the next update.
   */
  lemma RepaintDimsOtherSelected(keys: seq<SelectionId>, clicked: nat, ids: seq<SelectionId>, j: nat)
    requires clicked < |keys| && j < |keys| && j != clicked
    requires keys[j] in ids
    ensures Repainted(|keys|, clicked, |ids| > 0)[j] == 0.5
    ensures Emphasis.SelectionOpacity(keys[j], ids) == 1.0
  {
    var k :| 0 <= k < |ids| && ids[k] == keys[j];
    assert Emphasis.Selected(keys[j], ids);
  }
}
