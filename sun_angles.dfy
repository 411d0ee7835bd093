/** The sun-azimuth stage of `sun_angles.create` (sun_angles.py, lines 52-70):
    the sine of the south-west azimuth is clamped to [-1, 1], its arcsine is
    moved into the right quadrant by the sign of the (unclamped) cosine, the
    angle is turned by pi to measure from north, and one wrap brings it back
    into (0, 2 pi].

    The sine and cosine themselves come from the solar-position series
    before line 52 and are parameters here.
 */
module SunAngles {
  import opened Trig

  /** `clamp(lo, hi)` on one value. */
  function Clamp(x: real, lo: real, hi: real): (r: real)
    requires lo <= hi
    ensures lo <= r <= hi
    ensures lo <= x <= hi ==> r == x
    ensures x < lo ==> r == lo
    ensures hi < x ==> r == hi
  {
    if x < lo then lo else if hi < x then hi else x
  }

  /** The two `where` stages of lines 63-66 applied to `s = asin(sinSw)`. */
  function QuadrantAdjust(t: Trig, sinSw: real, cosSw: real): real {
    var s := t.asin(sinSw);
    var stage1 := if cosSw <= 0.0 then -s + t.pi else s;
    if cosSw > 0.0 && sinSw <= 0.0 then stage1 + 2.0 * t.pi else stage1
  }

  /** The wrap of line 70: subtract 2 pi only from values strictly above it. */
  function Wrap(t: Trig, x: real): real {
    if x > 2.0 * t.pi then x - 2.0 * t.pi else x
  }

  /** `sun_az` from the raw sine and the cosine of the south-west azimuth. */
  function SunAzimuth(t: Trig, sinRaw: real, cosSw: real): real {
    var sinSw := Clamp(sinRaw, -1.0, 1.0);
    Wrap(t, QuadrantAdjust(t, sinSw, cosSw) + t.pi)
  }

  /** The two conditions are disjoint: at most one adjustment is applied,
      and the three sign cases give three closed forms. */
  lemma QuadrantResolution(t: Trig, sinSw: real, cosSw: real)
    ensures !(cosSw <= 0.0 && cosSw > 0.0 && sinSw <= 0.0)
    ensures cosSw <= 0.0 ==> QuadrantAdjust(t, sinSw, cosSw) == t.pi - t.asin(sinSw)
    ensures cosSw > 0.0 && sinSw <= 0.0 ==> QuadrantAdjust(t, sinSw, cosSw) == t.asin(sinSw) + 2.0 * t.pi
    ensures cosSw > 0.0 && sinSw > 0.0 ==> QuadrantAdjust(t, sinSw, cosSw) == t.asin(sinSw)
  {
  }

  /** With asin in [-pi/2, pi/2] and of the sign of its argument, the
      adjusted south-west azimuth lies in (0, 2 pi]. */
  lemma QuadrantAdjustRange(t: Trig, sinSw: real, cosSw: real)
    requires AsinFacts(t)
    requires -1.0 <= sinSw <= 1.0
    ensures 0.0 < QuadrantAdjust(t, sinSw, cosSw) <= 2.0 * t.pi
    ensures cosSw <= 0.0 ==> t.pi / 2.0 <= QuadrantAdjust(t, sinSw, cosSw) <= 3.0 * t.pi / 2.0
    ensures cosSw > 0.0 && sinSw <= 0.0 ==> 3.0 * t.pi / 2.0 <= QuadrantAdjust(t, sinSw, cosSw)
    ensures cosSw > 0.0 && sinSw > 0.0 ==> QuadrantAdjust(t, sinSw, cosSw) <= t.pi / 2.0
  {
    var s := t.asin(sinSw);
    assert -t.pi / 2.0 <= s <= t.pi / 2.0 && (s <= 0.0 <==> sinSw <= 0.0);
    QuadrantResolution(t, sinSw, cosSw);
  }

  /** The wrap leaves (0, 2 pi] alone; in particular 2 pi itself is kept and
      not turned into 0. */
  lemma WrapKeepsRange(t: Trig, x: real)
    requires 0.0 < x <= 2.0 * t.pi
    ensures Wrap(t, x) == x
  {
  }

  /** Applied once more, the wrap changes nothing on its own results for
      inputs in (0, 4 pi]. */
  lemma WrapIdempotent(t: Trig, x: real)
    requires t.pi > 0.0
    requires 0.0 < x <= 4.0 * t.pi
    ensures 0.0 < Wrap(t, x) <= 2.0 * t.pi
    ensures Wrap(t, Wrap(t, x)) == Wrap(t, x)
  {
    WrapKeepsRange(t, Wrap(t, x));
  }

  /** The final azimuth lies in (0, 2 pi] and differs from the adjusted
      south-west azimuth turned by pi by a whole turn at most. */
  lemma SunAzimuthRange(t: Trig, sinRaw: real, cosSw: real)
    requires AsinFacts(t)
    ensures 0.0 < SunAzimuth(t, sinRaw, cosSw) <= 2.0 * t.pi
    ensures var a := QuadrantAdjust(t, Clamp(sinRaw, -1.0, 1.0), cosSw) + t.pi;
      SunAzimuth(t, sinRaw, cosSw) == a || SunAzimuth(t, sinRaw, cosSw) == a - 2.0 * t.pi
  {
    var sinSw := Clamp(sinRaw, -1.0, 1.0);
    QuadrantAdjustRange(t, sinSw, cosSw);
    WrapIdempotent(t, QuadrantAdjust(t, sinSw, cosSw) + t.pi);
  }

  /** The result is 2 pi exactly when the adjusted south-west azimuth is pi;
      that value is kept as 2 pi rather than wrapped to 0. */
  lemma SunAzimuthTwoPi(t: Trig, sinRaw: real, cosSw: real)
    requires AsinFacts(t)
    ensures SunAzimuth(t, sinRaw, cosSw) == 2.0 * t.pi <==>
      QuadrantAdjust(t, Clamp(sinRaw, -1.0, 1.0), cosSw) == t.pi
  {
    var sinSw := Clamp(sinRaw, -1.0, 1.0);
    QuadrantAdjustRange(t, sinSw, cosSw);
  }
}
