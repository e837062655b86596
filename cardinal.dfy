/**
 * get_cardinal_direction: the eight-way compass label of a bearing, used for
 * display and for the diagonal cases of the direction filter.
 */
module Cardinal {

  const Directions: seq<string> := ["N", "NE", "E", "SE", "S", "SW", "W", "NW"]

  /** Python's built-in round() on a float: the nearest integer, and the even
      one of the two when x lies exactly half-way between them. */
  function RoundHalfEven(x: real): (n: int)
    ensures n as real - 0.5 <= x <= n as real + 0.5
    ensures (x == n as real - 0.5 || x == n as real + 0.5) ==> n % 2 == 0
  {
    var f := x.Floor;
    var frac := x - f as real;
    if frac < 0.5 then f
    else if frac > 0.5 then f + 1
    else if f % 2 == 0 then f
    else f + 1
  }

  /** The two properties above determine round() completely. */
  lemma RoundHalfEvenUnique(x: real, m: int)
    requires m as real - 0.5 <= x <= m as real + 0.5
    requires (x == m as real - 0.5 || x == m as real + 0.5) ==> m % 2 == 0
    ensures RoundHalfEven(x) == m
  {
  }

  function GetCardinalDirection(bearing: real): (d: string)
    ensures d in Directions
  {
    Directions[RoundHalfEven(bearing / 45.0) % 8]
  }

  /** Reference definition of the eight display sectors on [0, 360): sector k
      is centred on 45k degrees and 45 degrees wide. A half-way bearing belongs
      to the sector of even index (a primary direction), as round-half-to-even
      decides, and N takes both ends of the circle. */
  ghost predicate InSector(b: real, k: int) {
    if k == 0 then b <= 22.5 || 337.5 <= b
    else if k % 2 == 1 then 45.0 * k as real - 22.5 < b < 45.0 * k as real + 22.5
    else 45.0 * k as real - 22.5 <= b <= 45.0 * k as real + 22.5
  }

  lemma DirectionsDistinct(i: int, j: int)
    requires 0 <= i < 8 && 0 <= j < 8 && Directions[i] == Directions[j]
    ensures i == j
  {
  }

  /** On [0, 360) the label is Directions[k] exactly when the bearing lies in sector k. */
  lemma CardinalSectors(b: real, k: int)
    requires 0.0 <= b < 360.0 && 0 <= k < 8
    ensures GetCardinalDirection(b) == Directions[k] <==> InSector(b, k)
  {
    var n := RoundHalfEven(b / 45.0);
    if GetCardinalDirection(b) == Directions[k] {
      DirectionsDistinct(n % 8, k);
    }
    SectorOfRound(b, k);
  }

  /** The rounded index of a bearing on [0, 360) picks out sector k. */
  lemma SectorOfRound(b: real, k: int)
    requires 0.0 <= b < 360.0 && 0 <= k < 8
    ensures InSector(b, k) <==> RoundHalfEven(b / 45.0) % 8 == k
  {
    var x := b / 45.0;
    var n := RoundHalfEven(x);
    assert b == 45.0 * x;
    assert 0 <= n <= 8;
    if k == 0 {
      if b <= 22.5 {
        RoundHalfEvenUnique(x, 0);
      } else if 337.5 <= b {
        RoundHalfEvenUnique(x, 8);
      } else {
        assert 0.5 < x < 7.5;
      }
    } else {
      if n == k {
        assert k as real - 0.5 <= x <= k as real + 0.5;
      }
      if InSector(b, k) {
        RoundHalfEvenUnique(x, k);
      }
    }
  }

  /** Shifting by a whole number shifts round() by the same amount. */
  lemma RoundHalfEvenShift(x: real, n: int)
    requires RoundHalfEven(x) == n
    ensures RoundHalfEven(x + 8.0) == n + 8
  {
    var y := x + 8.0;
    var m := n + 8;
    assert m as real - 0.5 <= y <= m as real + 0.5;
    assert (y == m as real - 0.5 || y == m as real + 0.5) ==> x == n as real - 0.5 || x == n as real + 0.5;
    assert m % 2 == n % 2;
    RoundHalfEvenUnique(y, m);
  }

  /** Bearings a whole turn apart get the same label. */
  lemma CardinalPeriodic(b: real)
    ensures GetCardinalDirection(b + 360.0) == GetCardinalDirection(b)
  {
    TurnShiftsIndex(b);
    var n := RoundHalfEven(b / 45.0);
    assert (n + 8) % 8 == n % 8;
  }

  /** A whole turn adds eight to the rounded index. */
  lemma TurnShiftsIndex(b: real)
    ensures RoundHalfEven((b + 360.0) / 45.0) == RoundHalfEven(b / 45.0) + 8
  {
    var x := b / 45.0;
    assert (b + 360.0) / 45.0 == x + 8.0;
    RoundHalfEvenShift(x, RoundHalfEven(x));
  }

  /** The labels of the cardinal points and of the half-way bearings. */
  lemma CardinalExamples()
    ensures GetCardinalDirection(0.0) == "N" && GetCardinalDirection(90.0) == "E"
    ensures GetCardinalDirection(180.0) == "S" && GetCardinalDirection(270.0) == "W"
    ensures GetCardinalDirection(359.0) == "N"
    ensures GetCardinalDirection(22.5) == "N" && GetCardinalDirection(67.5) == "E"
    ensures GetCardinalDirection(112.5) == "E" && GetCardinalDirection(157.5) == "S"
    ensures GetCardinalDirection(202.5) == "S" && GetCardinalDirection(247.5) == "W"
    ensures GetCardinalDirection(292.5) == "W" && GetCardinalDirection(337.5) == "N"
  {
    RoundHalfEvenUnique(0.0, 0);
    RoundHalfEvenUnique(2.0, 2);
    RoundHalfEvenUnique(4.0, 4);
    RoundHalfEvenUnique(6.0, 6);
    RoundHalfEvenUnique(359.0 / 45.0, 8);
    RoundHalfEvenUnique(0.5, 0);
    RoundHalfEvenUnique(1.5, 2);
    RoundHalfEvenUnique(2.5, 2);
    RoundHalfEvenUnique(3.5, 4);
    RoundHalfEvenUnique(4.5, 4);
    RoundHalfEvenUnique(5.5, 6);
    RoundHalfEvenUnique(6.5, 6);
    RoundHalfEvenUnique(7.5, 8);
  }
}
