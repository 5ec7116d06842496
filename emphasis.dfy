/**
 * Emphasis (opacity) of a drawn element against the host's active selection.
 * The active selection is a sequence, duplicates allowed; identities match by key.
 */
module Emphasis {
  import opened Types

  /** Some active selection carries the key of `id`. */
  predicate Selected(id: SelectionId, active: seq<SelectionId>)
  {
    exists j :: 0 <= j < |active| && active[j].key == id.key
  }

  /** The scan over the active selections from position `i`, returning at the first match. */
  function ScanFrom(id: SelectionId, active: seq<SelectionId>, i: nat): (opacity: real)
    requires i <= |active|
    ensures opacity == 1.0 || opacity == 0.5
    ensures opacity == 1.0 <==> exists j :: i <= j < |active| && active[j].key == id.key
    decreases |active| - i
  {
    if i == |active| then 0.5
    else if id.key == active[i].key then 1.0
    else ScanFrom(id, active, i + 1)
  }

  /**
   * Opacity of a grid image, and of every child circle: fully opaque when
   * nothing is selected or when the element is selected, half otherwise.
   */
  function SelectionOpacity(id: SelectionId, active: seq<SelectionId>): (opacity: real)
    ensures |active| == 0 ==> opacity == 1.0
    ensures |active| > 0 && Selected(id, active) ==> opacity == 1.0
    ensures |active| > 0 && !Selected(id, active) ==> opacity == 0.5
  {
    if |active| <= 0 then 1.0 else ScanFrom(id, active, 0)
  }

  /** Opacity of a node of the circle pack: the enclosing pack circle is invisible. */
  function CircleOpacity(node: PackNode, active: seq<SelectionId>): (opacity: real)
    ensures node.Container? ==> opacity == 0.0
    ensures node.Leaf? ==> opacity == SelectionOpacity(node.child.selectionId, active)
  {
    match node
    case Container => 0.0
    case Leaf(child) => SelectionOpacity(child.selectionId, active)
  }

  /** Every opacity the visual paints is one of 0.0, 0.5 and 1.0. */
  lemma CircleOpacityValues(node: PackNode, active: seq<SelectionId>)
    ensures CircleOpacity(node, active) in {0.0, 0.5, 1.0}
  {
  }

  /** A key found in one selection is found in any selection holding the same identities. */
  lemma SelectedTransfers(id: SelectionId, active: seq<SelectionId>, other: seq<SelectionId>)
    requires forall s :: s in active ==> s in other
    requires Selected(id, active)
    ensures Selected(id, other)
  {
    var j :| 0 <= j < |active| && active[j].key == id.key;
    assert active[j] in other;
    var k :| 0 <= k < |other| && other[k] == active[j];
  }

  /** Only the order-free content of the active selection matters. */
  lemma SelectionOpacityIgnoresOrder(id: SelectionId, active: seq<SelectionId>, other: seq<SelectionId>)
    requires forall s :: s in active <==> s in other
    ensures SelectionOpacity(id, active) == SelectionOpacity(id, other)
  {
    if |active| > 0 {
      assert active[0] in other;
    }
    if |other| > 0 {
      assert other[0] in active;
    }
    if Selected(id, active) {
      SelectedTransfers(id, active, other);
    }
    if Selected(id, other) {
      SelectedTransfers(id, other, active);
    }
  }

  /** The worked case: with {A} selected, A, B, C paint as 1.0, 0.5, 0.5. */
  lemma SingleSelectionExample(a: SelectionId, b: SelectionId, c: SelectionId)
    requires a.key != b.key && a.key != c.key
    ensures [SelectionOpacity(a, [a]), SelectionOpacity(b, [a]), SelectionOpacity(c, [a])] == [1.0, 0.5, 0.5]
  {
    assert Selected(a, [a]) by { assert [a][0].key == a.key; }
  }
}
