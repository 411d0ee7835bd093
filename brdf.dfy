/** BRDF correction of the six reflectance bands (brdf_correction.py): the
    Ross-thick volumetric kernel at the actual and at the nadir view
    geometry (`_kvol`), and the per-band correction by the ratio of the two
    predicted reflectances (`_correct_band`, `_apply`, `apply`).

    All quantities are one pixel's values, as reals; the trigonometric
    functions and pi are those of a `Trig` record.
 */
module Brdf {
  import opened Trig

  /** The coefficient triple of one band's kernel model. */
  datatype Coeffs = Coeffs(fIso: real, fGeo: real, fVol: real)

  datatype Band = Blue | Green | Red | Nir | Swir1 | Swir2

  const Bands: seq<Band> := [Blue, Green, Red, Nir, Swir1, Swir2]

  function Name(b: Band): string {
    match b
    case Blue => "blue"
    case Green => "green"
    case Red => "red"
    case Nir => "nir"
    case Swir1 => "swir1"
    case Swir2 => "swir2"
  }

  /** The fixed coefficients `_apply` passes for each band. */
  function Coefficients(b: Band): Coeffs {
    match b
    case Blue => Coeffs(0.0774, 0.0079, 0.0372)
    case Green => Coeffs(0.1306, 0.0178, 0.0580)
    case Red => Coeffs(0.1690, 0.0227, 0.0574)
    case Nir => Coeffs(0.3093, 0.0330, 0.1535)
    case Swir1 => Coeffs(0.3430, 0.0453, 0.1154)
    case Swir2 => Coeffs(0.2658, 0.0387, 0.0639)
  }

  /** The six reflectance values of one pixel. */
  datatype Reflectance = Reflectance(blue: real, green: real, red: real, nir: real, swir1: real, swir2: real) {
    function Get(b: Band): real {
      match b
      case Blue => blue
      case Green => green
      case Red => red
      case Nir => nir
      case Swir1 => swir1
      case Swir2 => swir2
    }
  }

  // ---------------------------------------------------------------------
  // _correct_band

  /** `pred`: the geometric term is weighted by the volumetric kernel too, as
      the source has it; there is no separate geometric kernel. */
  function Pred(c: Coeffs, k: real): real {
    c.fVol * k + c.fGeo * k + c.fIso
  }

  /** `_correct_band`: the band scaled by `pred0 / pred`. */
  function CorrectBand(band: real, kvol: real, kvol0: real, c: Coeffs): (r: real)
    requires Pred(c, kvol) != 0.0
    ensures r * Pred(c, kvol) == band * Pred(c, kvol0)
  {
    var cfac := Pred(c, kvol0) / Pred(c, kvol);
    band * cfac
  }

  /** `pred` sees the coefficients only through `f_iso` and `f_vol + f_geo`. */
  lemma PredDependsOnSum(c: Coeffs, d: Coeffs, k: real)
    requires c.fIso == d.fIso && c.fVol + c.fGeo == d.fVol + d.fGeo
    ensures Pred(c, k) == Pred(d, k)
    ensures Pred(c, k) == (c.fVol + c.fGeo) * k + c.fIso
  {
  }

  /** Equal kernels leave the band unchanged. */
  lemma CorrectBandEqualKernels(band: real, k: real, c: Coeffs)
    requires Pred(c, k) != 0.0
    ensures CorrectBand(band, k, k, c) == band
  {
  }

  /** Without anisotropic weight the factor is exactly 1, whatever the kernels. */
  lemma CorrectBandIsotropic(band: real, kvol: real, kvol0: real, c: Coeffs)
    requires c.fVol + c.fGeo == 0.0 && c.fIso != 0.0
    ensures Pred(c, kvol) == c.fIso && Pred(c, kvol0) == c.fIso
    ensures CorrectBand(band, kvol, kvol0, c) == band
  {
    PredDependsOnSum(c, c, kvol);
    PredDependsOnSum(c, c, kvol0);
    assert (c.fVol + c.fGeo) * kvol == 0.0 && (c.fVol + c.fGeo) * kvol0 == 0.0;
  }

  // ---------------------------------------------------------------------
  // _apply

  /** `pred` is non-zero for every band, so that every ratio is defined. */
  predicate Defined(kvol: real) {
    forall b: Band :: Pred(Coefficients(b), kvol) != 0.0
  }

  /** The smallest kernel value for which the model guarantees a positive
      `pred`.  The tightest band is nir, where `f_iso / (f_vol + f_geo)` is
      about 1.658; typical Ross-thick kernels, pi times about -0.03 near
      nadir, lie well above it. */
  const KVOL_MIN: real := -1.6

  /** All published coefficients are positive and every `f_iso` outweighs
      1.6 times `f_vol + f_geo`, so no kernel down to `KVOL_MIN`, negative
      kernels included, makes a denominator vanish. */
  lemma DefinedAboveBound(kvol: real)
    requires kvol >= KVOL_MIN
    ensures Defined(kvol)
    ensures forall b: Band :: Pred(Coefficients(b), kvol) > 0.0
  {
    forall b: Band ensures Pred(Coefficients(b), kvol) > 0.0 {
      var c := Coefficients(b);
      var w := c.fVol + c.fGeo;
      assert w > 0.0 && c.fIso + w * KVOL_MIN > 0.0;
      assert w * kvol >= w * KVOL_MIN;
      assert Pred(c, kvol) == w * kvol + c.fIso;
    }
  }

  /** The bound cannot be lowered much: at `-f_iso / (f_vol + f_geo)` of nir
      that band's `pred` is 0 and the correction is undefined. */
  lemma UndefinedAtNirRoot()
    ensures Pred(Coefficients(Nir), -0.3093 / 0.1865) == 0.0
    ensures !Defined(-0.3093 / 0.1865)
  {
    assert Pred(Coefficients(Nir), -0.3093 / 0.1865) == 0.0;
  }

  /** `_apply`: each of the six bands corrected with its own coefficients. */
  function ApplyCorrection(px: Reflectance, kvol: real, kvol0: real): Reflectance
    requires Defined(kvol)
  {
    assert Pred(Coefficients(Blue), kvol) != 0.0;
    assert Pred(Coefficients(Green), kvol) != 0.0;
    assert Pred(Coefficients(Red), kvol) != 0.0;
    assert Pred(Coefficients(Nir), kvol) != 0.0;
    assert Pred(Coefficients(Swir1), kvol) != 0.0;
    assert Pred(Coefficients(Swir2), kvol) != 0.0;
    Reflectance(
      CorrectBand(px.blue, kvol, kvol0, Coefficients(Blue)),
      CorrectBand(px.green, kvol, kvol0, Coefficients(Green)),
      CorrectBand(px.red, kvol, kvol0, Coefficients(Red)),
      CorrectBand(px.nir, kvol, kvol0, Coefficients(Nir)),
      CorrectBand(px.swir1, kvol, kvol0, Coefficients(Swir1)),
      CorrectBand(px.swir2, kvol, kvol0, Coefficients(Swir2)))
  }

  /** Every band is scaled so that corrected value times `pred` equals input
      value times `pred0`. */
  lemma ApplyCorrectionRatio(px: Reflectance, kvol: real, kvol0: real)
    requires Defined(kvol)
    ensures forall b: Band :: ApplyCorrection(px, kvol, kvol0).Get(b) * Pred(Coefficients(b), kvol)
                           == px.Get(b) * Pred(Coefficients(b), kvol0)
  {
    forall b: Band
      ensures ApplyCorrection(px, kvol, kvol0).Get(b) * Pred(Coefficients(b), kvol)
           == px.Get(b) * Pred(Coefficients(b), kvol0)
    {
      ApplyCorrectionIsPerBand(px, px, kvol, kvol0, b);
    }
  }

  /** Each corrected band depends only on its own input band and the two kernels. */
  lemma ApplyCorrectionIsPerBand(px: Reflectance, qx: Reflectance, kvol: real, kvol0: real, b: Band)
    requires Defined(kvol)
    requires px.Get(b) == qx.Get(b)
    ensures ApplyCorrection(px, kvol, kvol0).Get(b) == ApplyCorrection(qx, kvol, kvol0).Get(b)
    ensures ApplyCorrection(px, kvol, kvol0).Get(b) == CorrectBand(px.Get(b), kvol, kvol0, Coefficients(b))
  {
  }

  /** Equal kernels leave the whole pixel unchanged. */
  lemma ApplyCorrectionEqualKernels(px: Reflectance, k: real)
    requires Defined(k)
    ensures ApplyCorrection(px, k, k) == px
  {
    var r := ApplyCorrection(px, k, k);
    forall b: Band ensures r.Get(b) == px.Get(b) {
      CorrectBandEqualKernels(px.Get(b), k, Coefficients(b));
      ApplyCorrectionIsPerBand(px, px, k, k, b);
    }
    assert r.blue == px.blue && r.green == px.green && r.red == px.red;
    assert r.nir == px.nir && r.swir1 == px.swir1 && r.swir2 == px.swir2;
  }

  // ---------------------------------------------------------------------
  // _kvol

  /** The denominator `cos(sun_zen) + cos(view_zen)` of the kernel is non-zero. */
  predicate KvolDefined(t: Trig, sunZen: real, viewZen: real) {
    t.cos(sunZen) + t.cos(viewZen) != 0.0
  }

  /** `kvol`, the Ross-thick kernel at the actual view geometry (first half
      of `_kvol`; all angles in radians). */
  function Kvol(t: Trig, sunAz: real, sunZen: real, viewAz: real, viewZen: real): real
    requires KvolDefined(t, sunZen, viewZen)
  {
    var relativeAzimuth := sunAz - viewAz;
    var pa1 := t.cos(viewZen) * t.cos(sunZen);
    var pa2 := t.sin(viewZen) * t.sin(sunZen) * t.cos(relativeAzimuth);
    var phaseAngle1 := pa1 + pa2;
    var phaseAngle := t.acos(phaseAngle1);
    var p1 := t.pi / 2.0 - phaseAngle;
    var p2 := p1 * phaseAngle1;
    var p3 := p2 + t.sin(phaseAngle);
    var p4 := t.cos(sunZen) + t.cos(viewZen);
    var p5 := t.pi / 4.0;
    p3 / p4 - p5
  }

  /** `kvol0`, the same expression written out again with view zenith 0
      (second half of `_kvol`). */
  function Kvol0(t: Trig, sunAz: real, sunZen: real, viewAz: real): real
    requires KvolDefined(t, sunZen, 0.0)
  {
    var relativeAzimuth := sunAz - viewAz;
    var viewZen0 := 0.0;
    var pa10 := t.cos(viewZen0) * t.cos(sunZen);
    var pa20 := t.sin(viewZen0) * t.sin(sunZen) * t.cos(relativeAzimuth);
    var phaseAngle10 := pa10 + pa20;
    var phaseAngle0 := t.acos(phaseAngle10);
    var p10 := t.pi / 2.0 - phaseAngle0;
    var p20 := p10 * phaseAngle10;
    var p30 := p20 + t.sin(phaseAngle0);
    var p40 := t.cos(sunZen) + t.cos(viewZen0);
    var p50 := t.pi / 4.0;
    p30 / p40 - p50
  }

  /** `kvol0` is `kvol` with the view zenith replaced by 0, for any
      trigonometry; so both kernels coincide at nadir. */
  lemma Kvol0IsKvolAtNadir(t: Trig, sunAz: real, sunZen: real, viewAz: real, viewZen: real)
    requires viewZen == 0.0 && KvolDefined(t, sunZen, viewZen)
    ensures Kvol0(t, sunAz, sunZen, viewAz) == Kvol(t, sunAz, sunZen, viewAz, viewZen)
  {
  }

  /** With sin 0 = 0 and cos 0 = 1 the nadir kernel ignores both azimuths:
      it is a closed form of the sun zenith alone. */
  lemma Kvol0IgnoresAzimuth(t: Trig, sunAz: real, sunZen: real, viewAz: real)
    requires AtZero(t)
    requires KvolDefined(t, sunZen, 0.0)
    ensures Kvol0(t, sunAz, sunZen, viewAz) ==
      ((t.pi / 2.0 - t.acos(t.cos(sunZen))) * t.cos(sunZen) + t.sin(t.acos(t.cos(sunZen))))
        / (t.cos(sunZen) + 1.0) - t.pi / 4.0
  {
    assert t.sin(0.0) * t.sin(sunZen) * t.cos(sunAz - viewAz) == 0.0;
    assert t.cos(0.0) * t.cos(sunZen) == t.cos(sunZen);
  }

  /** The pair `(kvol, kvol0)` that `_kvol` returns. */
  datatype Kernels = Kernels(kvol: real, kvol0: real)

  function KvolPair(t: Trig, sunAz: real, sunZen: real, viewAz: real, viewZen: real): Kernels
    requires KvolDefined(t, sunZen, viewZen) && KvolDefined(t, sunZen, 0.0)
  {
    Kernels(Kvol(t, sunAz, sunZen, viewAz, viewZen), Kvol0(t, sunAz, sunZen, viewAz))
  }

  /** At nadir `_kvol` returns two equal kernels. */
  lemma KvolPairAtNadir(t: Trig, sunAz: real, sunZen: real, viewAz: real, viewZen: real)
    requires viewZen == 0.0 && KvolDefined(t, sunZen, viewZen)
    ensures KvolDefined(t, sunZen, 0.0)
    ensures KvolPair(t, sunAz, sunZen, viewAz, viewZen).kvol == KvolPair(t, sunAz, sunZen, viewAz, viewZen).kvol0
  {
    Kvol0IsKvolAtNadir(t, sunAz, sunZen, viewAz, viewZen);
  }

  // ---------------------------------------------------------------------
  // apply

  /** Both kernels multiplied by pi, as `apply` passes them to `_apply`. */
  function ScaledKernels(t: Trig, sunAz: real, sunZen: real, viewAz: real, viewZen: real): Kernels
    requires KvolDefined(t, sunZen, viewZen) && KvolDefined(t, sunZen, 0.0)
  {
    var k := KvolPair(t, sunAz, sunZen, viewAz, viewZen);
    Kernels(t.pi * k.kvol, t.pi * k.kvol0)
  }

  /** ... and so does their scaling by pi. */
  lemma ScaledKernelsAtNadir(t: Trig, sunAz: real, sunZen: real, viewAz: real, viewZen: real)
    requires viewZen == 0.0 && KvolDefined(t, sunZen, viewZen)
    ensures KvolDefined(t, sunZen, 0.0)
    ensures ScaledKernels(t, sunAz, sunZen, viewAz, viewZen).kvol == ScaledKernels(t, sunAz, sunZen, viewAz, viewZen).kvol0
  {
    KvolPairAtNadir(t, sunAz, sunZen, viewAz, viewZen);
  }

  /** `apply` for one pixel. */
  function ApplyBrdf(t: Trig, px: Reflectance, sunAz: real, sunZen: real, viewAz: real, viewZen: real): Reflectance
    requires KvolDefined(t, sunZen, viewZen) && KvolDefined(t, sunZen, 0.0)
    requires Defined(ScaledKernels(t, sunAz, sunZen, viewAz, viewZen).kvol)
  {
    var k := ScaledKernels(t, sunAz, sunZen, viewAz, viewZen);
    ApplyCorrection(px, k.kvol, k.kvol0)
  }

  /** A pixel seen from nadir is not changed by the correction. */
  lemma ApplyBrdfAtNadir(t: Trig, px: Reflectance, sunAz: real, sunZen: real, viewAz: real, viewZen: real)
    requires viewZen == 0.0 && KvolDefined(t, sunZen, viewZen)
    requires Defined(ScaledKernels(t, sunAz, sunZen, viewAz, viewZen).kvol)
    ensures KvolDefined(t, sunZen, 0.0)
    ensures ApplyBrdf(t, px, sunAz, sunZen, viewAz, viewZen) == px
  {
    ScaledKernelsAtNadir(t, sunAz, sunZen, viewAz, viewZen);
    var k := ScaledKernels(t, sunAz, sunZen, viewAz, viewZen);
    ApplyCorrectionEqualKernels(px, k.kvol);
  }

  /** The correction `_apply` makes is the one for pi times the kernels
      `_kvol` returns, at the actual view and at nadir. */
  lemma ApplyBrdfUsesPiKvol(t: Trig, px: Reflectance, sunAz: real, sunZen: real, viewAz: real, viewZen: real)
    requires KvolDefined(t, sunZen, viewZen) && KvolDefined(t, sunZen, 0.0)
    requires Defined(ScaledKernels(t, sunAz, sunZen, viewAz, viewZen).kvol)
    ensures Defined(t.pi * Kvol(t, sunAz, sunZen, viewAz, viewZen))
    ensures ApplyBrdf(t, px, sunAz, sunZen, viewAz, viewZen)
         == ApplyCorrection(px, t.pi * Kvol(t, sunAz, sunZen, viewAz, viewZen), t.pi * Kvol0(t, sunAz, sunZen, viewAz))
  {
    var k := ScaledKernels(t, sunAz, sunZen, viewAz, viewZen);
    var kvol, kvol0 := t.pi * Kvol(t, sunAz, sunZen, viewAz, viewZen), t.pi * Kvol0(t, sunAz, sunZen, viewAz);
    assert k.kvol == kvol && k.kvol0 == kvol0;
    assert ApplyBrdf(t, px, sunAz, sunZen, viewAz, viewZen) == ApplyCorrection(px, k.kvol, k.kvol0);
  }
}
