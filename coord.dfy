/**
 * Points in the monitored space and the Euclidean metric the regions use.
 *
 * The source measures distance with a square root of float sums. Here the
 * squared distance is computed exactly over the reals, and every comparison of
 * a distance with a threshold or with another distance is stated on squared
 * distances; the lemmas at the end show that each such comparison agrees with
 * the comparison of the true (non-negative) distances, for every threshold.
 */
module Coords {
  import opened Text

  /** A point: x across, y up, z away from the sensor. */
  datatype Coord = Coord(x: real, y: real, z: real)

  /** The two-dimensional constructor: the point lies on the floor plane. */
  function Coord2D(x: real, z: real): (c: Coord)
    ensures c.x == x && c.z == z
    ensures c.y == 0.0
  {
    Coord(x, 0.0, z)
  }

  /** Offset from this point to the given coordinate, per axis. */
  function Dx(c: Coord, x: real): real { x - c.x }
  function Dy(c: Coord, y: real): real { y - c.y }
  function Dz(c: Coord, z: real): real { z - c.z }

  /** The square of a real. */
  function Square(a: real): real
  {
    a * a
  }

  /** Squared distance between c and the point (x, y, z): the radicand of dist(x, y, z). */
  function SquaredDist(c: Coord, x: real, y: real, z: real): real
  {
    Square(Dx(c, x)) + Square(Dy(c, y)) + Square(Dz(c, z))
  }

  /** Squared distance between c and another point: dist(from) measures to from's components. */
  function SquaredDistTo(c: Coord, from: Coord): real
  {
    SquaredDist(c, from.x, from.y, from.z)
  }

  /** A squared distance is never negative, and a point is at distance zero from itself. */
  lemma SquaredDistProperties(c: Coord, from: Coord)
    ensures SquaredDistTo(c, from) >= 0.0
    ensures from == c ==> SquaredDistTo(c, from) == 0.0
  {
    SquareNonNegative(Dx(c, from.x));
    SquareNonNegative(Dy(c, from.y));
    SquareNonNegative(Dz(c, from.z));
  }

  lemma {:induction false} SquareNonNegative(a: real)
    ensures Square(a) >= 0.0
  {
    if a < 0.0 {
      MulPositive(-a, -a);
    } else {
      MulNonNegative(a, a);
    }
  }

  /** d is the Euclidean distance whose square is sq. */
  ghost predicate IsDistance(sq: real, d: real)
  {
    d >= 0.0 && d * d == sq
  }

  /** The distance whose square is sq is at most t. */
  predicate AtMost(sq: real, t: real)
  {
    0.0 <= t && sq <= t * t
  }

  /** The distance whose square is sq is at least t. */
  predicate AtLeast(sq: real, t: real)
  {
    t <= 0.0 || t * t <= sq
  }

  /** The metric is symmetric. */
  lemma SquaredDistSymmetric(a: Coord, b: Coord)
    ensures SquaredDistTo(a, b) == SquaredDistTo(b, a)
  {
  }

  /** For non-negative reals, squaring preserves and reflects strict order. */
  lemma {:induction false} SquareMonotone(a: real, b: real)
    requires 0.0 <= a && 0.0 <= b
    ensures a < b <==> a * a < b * b
  {
    if a < b {
      MulNonNegative(a, b - a);
      MulPositive(b, b - a);
    } else {
      MulNonNegative(b, a - b);
      MulNonNegative(a, a - b);
    }
  }

  lemma MulNonNegative(p: real, q: real)
    requires 0.0 <= p && 0.0 <= q
    ensures 0.0 <= p * q
  {
  }

  lemma MulPositive(p: real, q: real)
    requires 0.0 < p && 0.0 < q
    ensures 0.0 < p * q
  {
  }

  /** AtMost and AtLeast compare the true distance with t, whatever the sign of t. */
  lemma {:induction false} ThresholdComparisons(sq: real, d: real, t: real)
    requires IsDistance(sq, d)
    ensures AtMost(sq, t) <==> d <= t
    ensures AtLeast(sq, t) <==> d >= t
  {
    if t >= 0.0 {
      SquareMonotone(t, d);
      SquareMonotone(d, t);
    }
  }

  /** Comparing squared distances compares the distances. */
  lemma {:induction false} DistanceOrder(sq1: real, d1: real, sq2: real, d2: real)
    requires IsDistance(sq1, d1) && IsDistance(sq2, d2)
    ensures sq1 < sq2 <==> d1 < d2
    ensures sq1 == sq2 <==> d1 == d2
  {
    SquareMonotone(d1, d2);
    SquareMonotone(d2, d1);
  }

  /** The XML element for a point, with its coordinates formatted by fmt. */
  function PositionNode(c: Coord, fmt: real -> string): Node
  {
    Leaf("position", [("x", fmt(c.x)), ("y", fmt(c.y)), ("z", fmt(c.z))])
  }

  lemma PositionNodeText(c: Coord, x: string, y: string, z: string, fmt: real -> string)
    requires x == fmt(c.x) && y == fmt(c.y) && z == fmt(c.z)
    ensures Render(PositionNode(c, fmt), 2)
         == "        <position " + "x=\"" + x + "\" " + "y=\"" + y + "\" " + "z=\"" + z + "\" " + "/>\n"
  {
    PositionAttrsLine(x, y, z);
    ThreeAttrs("x", x, "y", y, "z", z);
    var a := AttrsText(PositionNode(c, fmt).attrs);
    assert Indent(2) == "        ";
    assert Indent(2) + "<" + "position" == "        <position";
    Assoc("        <position" + a, " ", "/>\n");
  }

  /** The attributes of a position element, each followed by a space as the source writes them. */
  lemma PositionAttrsLine(x: string, y: string, z: string)
    ensures "        <position " + "x=\"" + x + "\" " + "y=\"" + y + "\" " + "z=\"" + z + "\" "
         == "        <position" + (AttrText("x", x) + AttrText("y", y) + AttrText("z", z)) + " "
  {
    var head := "        <position";
    var l0 := "        <position ";
    assert l0 == head + "" + " ";
    AttrThenSpace(l0, head, "", "x=\"", "x", x);
    var a1 := "" + AttrText("x", x);
    assert a1 == AttrText("x", x);
    var l1 := l0 + "x=\"" + x + "\" ";
    AttrThenSpace(l1, head, a1, "y=\"", "y", y);
    var a2 := a1 + AttrText("y", y);
    var l2 := l1 + "y=\"" + y + "\" ";
    AttrThenSpace(l2, head, a2, "z=\"", "z", z);
  }

  /** One more attribute written as name="value" followed by a space. */
  lemma AttrThenSpace(line: string, head: string, a: string, nameEq: string, name: string, v: string)
    requires line == head + a + " "
    requires nameEq == name + "=\""
    ensures line + nameEq + v + "\" " == head + (a + AttrText(name, v)) + " "
  {
  }

  /** Coord.toXML: one position element at the depth of a region's child, attributes x, y, z in that order. */
  function ToXML(c: Coord, fmt: real -> string): (out: string)
    ensures out == Render(PositionNode(c, fmt), 2)
  {
    var x, y, z := fmt(c.x), fmt(c.y), fmt(c.z);
    PositionNodeText(c, x, y, z, fmt);
    "        <position " + "x=\"" + x + "\" " + "y=\"" + y + "\" " + "z=\"" + z + "\" " + "/>\n"
  }
}
