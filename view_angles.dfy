/** The view geometry of view_angles.py.

    `zenith` interpolates the view zenith (in degrees) linearly across the
    swath from the distances of a pixel to the left and to the right edge of
    the scene footprint: +M on the left edge, -M on the right edge, where M
    is the maximum satellite zenith.  `azimuth` takes the line joining the
    centres of the upper and lower footprint edges and turns its
    perpendicular slope into an angle.

    The distances and the centre points are computed remotely and are
    parameters here; so is M.
 */
module ViewAngles {
  import opened Trig

  /** `zenith` for one pixel, before the conversion to radians. */
  function ZenithDeg(leftD: real, rightD: real, maxZen: real): real
    requires rightD + leftD != 0.0
  {
    rightD * (maxZen * 2.0) / (rightD + leftD) - maxZen
  }

  /** A reference form without division: the zenith times the distance sum
      is M times the difference of the distances. */
  lemma ZenithReference(leftD: real, rightD: real, maxZen: real)
    requires rightD + leftD != 0.0
    ensures ZenithDeg(leftD, rightD, maxZen) * (rightD + leftD) == maxZen * (rightD - leftD)
  {
    var sum := rightD + leftD;
    var q := rightD * (maxZen * 2.0) / sum;
    assert q * sum == rightD * (maxZen * 2.0);
    calc {
      ZenithDeg(leftD, rightD, maxZen) * sum;
      (q - maxZen) * sum;
      q * sum - maxZen * sum;
      rightD * maxZen * 2.0 - maxZen * (rightD + leftD);
      maxZen * (rightD - leftD);
    }
  }

  /** Inside the swath the zenith lies in [-M, M]. */
  lemma ZenithBounds(leftD: real, rightD: real, maxZen: real)
    requires leftD >= 0.0 && rightD >= 0.0 && rightD + leftD > 0.0
    requires maxZen >= 0.0
    ensures -maxZen <= ZenithDeg(leftD, rightD, maxZen) <= maxZen
  {
    var z := ZenithDeg(leftD, rightD, maxZen);
    var sum := rightD + leftD;
    ZenithReference(leftD, rightD, maxZen);
    assert z * sum == maxZen * (rightD - leftD);
    assert -maxZen * sum <= maxZen * (rightD - leftD) <= maxZen * sum;
    CancelPositive(z, maxZen, sum);
    CancelPositive(-maxZen, z, sum);
  }

  /** a s <= b s with s > 0 gives a <= b. */
  lemma CancelPositive(a: real, b: real, s: real)
    requires s > 0.0 && a * s <= b * s
    ensures a <= b
  {
    assert (b - a) * s >= 0.0;
  }

  /** On the left edge the zenith is +M, on the right edge -M. */
  lemma ZenithEdges(leftD: real, rightD: real, maxZen: real)
    ensures rightD != 0.0 ==> ZenithDeg(0.0, rightD, maxZen) == maxZen
    ensures leftD != 0.0 ==> ZenithDeg(leftD, 0.0, maxZen) == -maxZen
  {
    if rightD != 0.0 {
      ZenithReference(0.0, rightD, maxZen);
      var z := ZenithDeg(0.0, rightD, maxZen);
      assert (z - maxZen) * rightD == 0.0;
    }
    if leftD != 0.0 {
      ZenithReference(leftD, 0.0, maxZen);
      var z := ZenithDeg(leftD, 0.0, maxZen);
      assert (z + maxZen) * leftD == 0.0;
    }
  }

  /** Equal distances, the middle of the swath, give zenith 0: nadir. */
  lemma ZenithNadir(d: real, maxZen: real)
    requires d != 0.0
    ensures ZenithDeg(d, d, maxZen) == 0.0
  {
    ZenithReference(d, d, maxZen);
    var z := ZenithDeg(d, d, maxZen);
    assert z * (2.0 * d) == 0.0;
  }

  /** Swapping the two distances mirrors the zenith. */
  lemma ZenithAntisymmetric(leftD: real, rightD: real, maxZen: real)
    requires rightD + leftD != 0.0
    ensures ZenithDeg(rightD, leftD, maxZen) == -ZenithDeg(leftD, rightD, maxZen)
  {
    var sum := rightD + leftD;
    ZenithReference(leftD, rightD, maxZen);
    ZenithReference(rightD, leftD, maxZen);
    var z := ZenithDeg(leftD, rightD, maxZen);
    var w := ZenithDeg(rightD, leftD, maxZen);
    assert (w + z) * sum == 0.0;
  }

  // ---------------------------------------------------------------------
  // azimuth

  /** A centre point: longitude `x`, latitude `y`. */
  datatype Point = Point(x: real, y: real)

  /** The slope of the line from the upper to the lower edge centre; the
      source divides by the difference of the longitudes. */
  function Slope(upper: Point, lower: Point): (m: real)
    requires lower.x != upper.x
    ensures m * (lower.x - upper.x) == lower.y - upper.y
  {
    (lower.y - upper.y) / (lower.x - upper.x)
  }

  /** The slope is 0, and so its perpendicular undefined, exactly when both
      centres have the same latitude. */
  lemma SlopeZeroIff(upper: Point, lower: Point)
    requires lower.x != upper.x
    ensures Slope(upper, lower) == 0.0 <==> lower.y == upper.y
  {
    var m := Slope(upper, lower);
    if m == 0.0 {
      assert lower.y - upper.y == 0.0 * (lower.x - upper.x);
    }
  }

  /** `-1 / slope`: the slope of the perpendicular line. */
  function PerpSlope(m: real): (p: real)
    requires m != 0.0
    ensures p * m == -1.0
  {
    -1.0 / m
  }

  /** `azimuth`: pi/2 minus the arctangent of the perpendicular slope.  It
      is a single number for the whole image: it depends on the two centre
      points only, not on any pixel. */
  function ViewAzimuth(t: Trig, upper: Point, lower: Point): real
    requires lower.x != upper.x && lower.y != upper.y
  {
    SlopeZeroIff(upper, lower);
    t.pi / 2.0 - t.atan(PerpSlope(Slope(upper, lower)))
  }

  /** With atan in (-pi/2, pi/2) the view azimuth lies in (0, pi), and it is
      pi/2 minus the arctangent of the perpendicular of the centre line. */
  lemma ViewAzimuthRange(t: Trig, upper: Point, lower: Point)
    requires AtanFacts(t)
    requires lower.x != upper.x && lower.y != upper.y
    ensures 0.0 < ViewAzimuth(t, upper, lower) < t.pi
    ensures ViewAzimuth(t, upper, lower) == t.pi / 2.0 - t.atan((upper.x - lower.x) / (lower.y - upper.y))
  {
    var m := Slope(upper, lower);
    SlopeZeroIff(upper, lower);
    var p := PerpSlope(m);
    assert -t.pi / 2.0 < t.atan(p) < t.pi / 2.0;
    var dx := lower.x - upper.x;
    var dy := lower.y - upper.y;
    assert p * dy == (p * m) * dx;
    assert p * dy == -dx;
    assert p == (upper.x - lower.x) / dy;
  }
}
