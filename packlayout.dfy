/**
 * The circle-pack layouts up to the packing library: the weight given to each
 * point (by value, or by rank in the top-list variant), and how each node the
 * library returns is drawn (URL, rectangle, opacity).
 */
module PackLayout {
  import opened Types
  import Emphasis
  import Resolution

  function Abs(x: real): real
  {
    if x < 0.0 then -x else x
  }

  /** The smaller of two optional values, skipping nulls. */
  function MinOpt(a: Option<real>, b: Option<real>): Option<real>
  {
    match (a, b)
    case (None, _) => b
    case (_, None) => a
    case (Some(x), Some(y)) => Some(if x <= y then x else y)
  }

  /** The larger of two optional values, skipping nulls. */
  function MaxOpt(a: Option<real>, b: Option<real>): Option<real>
  {
    match (a, b)
    case (None, _) => b
    case (_, None) => a
    case (Some(x), Some(y)) => Some(if x >= y then x else y)
  }

  /** The least non-null value of the points (null when every value is null). */
  function MinValue(points: seq<DataPoint>): (m: Option<real>)
    ensures m.None? <==> forall i :: 0 <= i < |points| ==> points[i].value.None?
    ensures m.Some? ==> forall i :: 0 <= i < |points| && points[i].value.Some? ==> m.value <= points[i].value.value
    ensures m.Some? ==> exists i :: 0 <= i < |points| && points[i].value == m
  {
    if |points| == 0 then None
    else
      var rest := MinValue(points[1..]);
      assert forall i :: 1 <= i < |points| ==> points[i] == points[1..][i - 1];
      MinOpt(points[0].value, rest)
  }

  /** The greatest non-null value of the points (null when every value is null). */
  function MaxValue(points: seq<DataPoint>): (m: Option<real>)
    ensures m.None? <==> forall i :: 0 <= i < |points| ==> points[i].value.None?
    ensures m.Some? ==> forall i :: 0 <= i < |points| && points[i].value.Some? ==> points[i].value.value <= m.value
    ensures m.Some? ==> exists i :: 0 <= i < |points| && points[i].value == m
  {
    if |points| == 0 then None
    else
      var rest := MaxValue(points[1..]);
      assert forall i :: 1 <= i < |points| ==> points[i] == points[1..][i - 1];
      MaxOpt(points[0].value, rest)
  }

  /**
   * The proportional weight of a value: 1 for null, otherwise the value shifted
   * by the minimum and padded by a tenth of the absolute maximum value, plus 1.
   */
  function ProportionalWeight(value: Option<real>, minValue: Option<real>, maxValue: Option<real>): real
    requires value.Some? ==> minValue.Some? && maxValue.Some?
  {
    match value
    case None => 1.0
    case Some(v) => v - minValue.value + Abs(maxValue.value) * 0.1 + 1.0
  }

  /** The child handed to the packing library for a point with the given weight. */
  function ChildOf(p: DataPoint, weight: real): PackChild
  {
    PackChild(weight, p.imageURL, p.imageURLHQ, p.selectionId)
  }

  /** The children of the weighted circle layout, one per point, in order. */
  function ProportionalChildren(points: seq<DataPoint>): seq<PackChild>
  {
    var lo := MinValue(points);
    var hi := MaxValue(points);
    seq(|points|, i requires 0 <= i < |points| => ChildOf(points[i], ProportionalWeight(points[i].value, lo, hi)))
  }

  /** The weighted circle layout's loop, pushing one child per point. */
  method BuildProportionalChildren(points: seq<DataPoint>) returns (children: seq<PackChild>)
    ensures children == ProportionalChildren(points)
  {
    var minValue := MinValue(points);
    var maxValue := MaxValue(points);
    children := [];
    for i := 0 to |points|
      invariant |children| == i
      invariant forall k :: 0 <= k < i ==> children[k] == ProportionalChildren(points)[k]
    {
      var p := points[i];
      var weight := if p.value.None? then 1.0
                    else p.value.value - minValue.value + Abs(maxValue.value) * 0.1 + 1.0;
      children := children + [PackChild(weight, p.imageURL, p.imageURLHQ, p.selectionId)];
    }
  }

  /** One child per point, in input order, carrying that point's URLs and identity. */
  lemma ProportionalChildrenFollowPoints(points: seq<DataPoint>, i: nat)
    requires i < |points|
    ensures |ProportionalChildren(points)| == |points|
    ensures var c := ProportionalChildren(points)[i];
      c.imageURLLQ == points[i].imageURL && c.imageURLHQ == points[i].imageURLHQ && c.selectionId == points[i].selectionId
  {
  }

  /** A null value weighs exactly 1; any other value weighs at least 1. */
  lemma ProportionalWeightAtLeastOne(points: seq<DataPoint>, i: nat)
    requires i < |points|
    ensures var w := ProportionalChildren(points)[i].value;
      && (points[i].value.None? ==> w == 1.0)
      && w >= 1.0
  {
    var lo := MinValue(points);
    if points[i].value.Some? {
      assert lo.value <= points[i].value.value;
    }
  }

  /** A point holding the minimum value weighs exactly a tenth of the absolute maximum plus 1. */
  lemma MinimumGetsPad(points: seq<DataPoint>, i: nat)
    requires i < |points| && points[i].value.Some?
    requires forall j :: 0 <= j < |points| && points[j].value.Some? ==> points[i].value.value <= points[j].value.value
    ensures ProportionalChildren(points)[i].value == Abs(MaxValue(points).value) * 0.1 + 1.0
  {
    var lo := MinValue(points);
    var k :| 0 <= k < |points| && points[k].value == lo;
    assert lo.value == points[i].value.value;
  }

  /** Weights follow values: a larger value never gets a smaller weight. */
  lemma ProportionalWeightMonotone(points: seq<DataPoint>, i: nat, j: nat)
    requires i < |points| && j < |points|
    requires points[i].value.Some? && points[j].value.Some?
    requires points[i].value.value >= points[j].value.value
    ensures ProportionalChildren(points)[i].value >= ProportionalChildren(points)[j].value
    ensures points[i].value.value > points[j].value.value ==>
      ProportionalChildren(points)[i].value > ProportionalChildren(points)[j].value
  {
  }

  /** The worked case: values 10, 1, 1, 1, 1 make the first circle the heaviest. */
  lemma ProportionalExample(ps: seq<DataPoint>)
    requires |ps| == 5 && ps[0].value == Some(10.0)
    requires forall k :: 1 <= k < 5 ==> ps[k].value == Some(1.0)
    ensures ProportionalChildren(ps)[0].value == 11.0
    ensures forall k :: 1 <= k < 5 ==> ProportionalChildren(ps)[k].value == 2.0
  {
    assert MinValue(ps) == Some(1.0) by {
      assert MinValue(ps).value <= ps[1].value.value;
    }
    assert MaxValue(ps) == Some(10.0) by {
      assert MaxValue(ps).value >= ps[0].value.value;
    }
  }

  /** Two null values weigh 1 each. */
  lemma NullExample(a: DataPoint, b: DataPoint)
    requires a.value.None? && b.value.None?
    ensures ProportionalChildren([a, b])[0].value == 1.0 && ProportionalChildren([a, b])[1].value == 1.0
  {
  }

  /** The top-list weight of rank `i` among `n` points. */
  function TopListWeight(i: nat, n: nat, topListWeight: real): real
  {
    if i == 0 then (n as real) * (n as real) * topListWeight * 0.1 else (n - i) as real
  }

  /** The children of the top-list layout, one per point, in order. */
  function TopListChildren(points: seq<DataPoint>, topListWeight: real): seq<PackChild>
  {
    seq(|points|, i requires 0 <= i < |points| => ChildOf(points[i], TopListWeight(i, |points|, topListWeight)))
  }

  /** The top-list layout's loop, pushing one child per point. */
  method BuildTopListChildren(points: seq<DataPoint>, topListWeight: real) returns (children: seq<PackChild>)
    ensures children == TopListChildren(points, topListWeight)
  {
    var n := |points|;
    children := [];
    for i := 0 to n
      invariant |children| == i
      invariant forall k :: 0 <= k < i ==> children[k] == TopListChildren(points, topListWeight)[k]
    {
      var p := points[i];
      var weight := if i == 0 then (n as real) * (n as real) * topListWeight * 0.1 else (n - i) as real;
      children := children + [PackChild(weight, p.imageURL, p.imageURLHQ, p.selectionId)];
    }
  }

  /** One top-list child per point, in input order, carrying that point's URLs and identity. */
  lemma TopListChildrenFollowPoints(points: seq<DataPoint>, topListWeight: real, i: nat)
    requires i < |points|
    ensures |TopListChildren(points, topListWeight)| == |points|
    ensures var c := TopListChildren(points, topListWeight)[i];
      c.imageURLLQ == points[i].imageURL && c.imageURLHQ == points[i].imageURLHQ && c.selectionId == points[i].selectionId
  {
  }

  /**
   * The top of a list of n points weighs n * n * topListWeight / 10, which is
   * non-negative for a non-negative factor; rank i >= 1 weighs n - i, at least 1.
   */
  lemma TopListWeightValue(points: seq<DataPoint>, topListWeight: real, i: nat)
    requires i < |points|
    ensures var cs := TopListChildren(points, topListWeight);
      var n := |points|;
      && |cs| == n
      && cs[0].value == (n as real) * (n as real) * topListWeight * 0.1
      && (topListWeight >= 0.0 ==> cs[0].value >= 0.0)
      && (i >= 1 ==> cs[i].value == (n - i) as real && cs[i].value >= 1.0)
      && (i == n - 1 && i >= 1 ==> cs[i].value == 1.0)
  {
    var n := |points| as real;
    if topListWeight >= 0.0 {
      assert n * n >= 0.0;
      assert n * n * topListWeight >= 0.0;
    }
  }

  /** Below the top, weights fall by one per rank: a later rank weighs at least 1 less. */
  lemma TopListWeightsDecrease(points: seq<DataPoint>, topListWeight: real, i: nat, j: nat)
    requires 1 <= i < j < |points|
    ensures var cs := TopListChildren(points, topListWeight);
      cs[i].value >= cs[j].value + 1.0 && cs[i].value - cs[j].value == (j - i) as real
  {
  }

  /**
   * With the default factor 1 the top circle outweighs the second only from
   * nine points on: for two to eight points the top weighs less than rank 1.
   */
  lemma DefaultTopListDominance(n: nat)
    requires n >= 2
    ensures n >= 9 ==> TopListWeight(0, n, 1.0) > TopListWeight(1, n, 1.0)
    ensures n <= 8 ==> TopListWeight(0, n, 1.0) < TopListWeight(1, n, 1.0)
  {
    var x := n as real;
    assert TopListWeight(0, n, 1.0) == x * x * 0.1;
    assert TopListWeight(1, n, 1.0) == x - 1.0;
    if n >= 10 {
      assert x * x >= 10.0 * x;
    } else if n == 9 {
      assert x * x == 81.0;
    } else {
      assert n in {2, 3, 4, 5, 6, 7, 8};
      assert x * x in {4.0, 9.0, 16.0, 25.0, 36.0, 49.0, 64.0};
    }
  }

  /** How one node returned by the packing library is drawn. */
  datatype Drawn = Drawn(href: Option<string>, rect: Rect, opacity: real)

  /** The rectangle of a circle: its bounding square. */
  function CircleRect(c: Circle): Rect
  {
    Rect(c.x - c.r, c.y - c.r, c.r * 2.0, c.r * 2.0)
  }

  /**
   * A packed node: a child shows its high-resolution image when its diameter
   * is above the threshold; the enclosing circle has no image and is invisible.
   */
  function DrawNode(node: PackNode, c: Circle, maxWidthForLowres: real, active: seq<SelectionId>): (d: Drawn)
    ensures d.rect == CircleRect(c)
    ensures d.opacity == Emphasis.CircleOpacity(node, active)
    ensures node.Container? ==> d.href == None && d.opacity == 0.0
    ensures node.Leaf? && c.r * 2.0 > maxWidthForLowres ==> d.href == Some(node.child.imageURLHQ)
    ensures node.Leaf? && c.r * 2.0 <= maxWidthForLowres ==> d.href == Some(node.child.imageURLLQ)
  {
    var href := match node
      case Container => None
      case Leaf(child) => Some(Resolution.ChooseImage(c.r * 2.0, maxWidthForLowres, child.imageURLLQ, child.imageURLHQ));
    Drawn(href, CircleRect(c), Emphasis.CircleOpacity(node, active))
  }

  /** The bounding square of a circle is centred on it and as wide as its diameter. */
  lemma CircleRectCentred(c: Circle)
    ensures var r := CircleRect(c);
      r.x + r.width / 2.0 == c.x && r.y + r.height / 2.0 == c.y && r.width == 2.0 * c.r
  {
  }
}
