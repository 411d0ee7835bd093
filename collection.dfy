/** Assembly of the multi-sensor Landsat collection (landsat_collection.py,
    `create_collection` and `landsat_collection`).

    A remote image collection is modelled as the list of its scenes, a scene
    as a record of the properties the filters read and of its pixels, and a
    pixel as a map from band names to raw values with a validity mask.
 */
module Collection {
  import opened QaBits

  datatype Sensor = L9 | L8 | L7 | L5 | L4

  /** The order in which `landsat_collection` merges the enabled sensors. */
  const MergeOrder: seq<Sensor> := [L9, L8, L7, L5, L4]

  function Rank(s: Sensor): nat {
    match s
    case L9 => 0
    case L8 => 1
    case L7 => 2
    case L5 => 3
    case L4 => 4
  }

  /** The common names every sensor's bands are renamed to. */
  const OutputBands: seq<string> := ["blue", "green", "red", "nir", "swir1", "swir2"]

  /** The surface-reflectance bands selected from each sensor, in the order of `OutputBands`. */
  function SourceBands(s: Sensor): (r: seq<string>)
    ensures |r| == |OutputBands|
  {
    match s
    case L9 | L8 => ["SR_B2", "SR_B3", "SR_B4", "SR_B5", "SR_B6", "SR_B7"]
    case L7 | L5 | L4 => ["SR_B1", "SR_B2", "SR_B3", "SR_B4", "SR_B5", "SR_B7"]
  }

  const QA_BAND: string := "QA_PIXEL"

  /** `filterDate("1970-01-01", "2021-10-30")` on the Landsat 7 catalog, in
      milliseconds since 1970-01-01T00:00:00Z (day 18930). */
  const L7_START: int := 0
  const L7_END: int := 1635552000000

  datatype Pixel = Pixel(bands: map<string, int>, valid: bool)

  /** `timeStart` is `system:time_start`; `footprint` is the set of ground cells it covers. */
  datatype Scene = Scene(
    sensor: Sensor,
    timeStart: int,
    cloudCover: real,
    footprint: set<int>,
    pixels: seq<Pixel>)

  /** The five remote catalogs `LANDSAT/LC09`, `LC08`, `LE07`, `LT05`, `LT04` (`C02/T1_L2`). */
  datatype Catalogs = Catalogs(l9: seq<Scene>, l8: seq<Scene>, l7: seq<Scene>, l5: seq<Scene>, l4: seq<Scene>)

  function Catalog(c: Catalogs, s: Sensor): seq<Scene> {
    match s
    case L9 => c.l9
    case L8 => c.l8
    case L7 => c.l7
    case L5 => c.l5
    case L4 => c.l4
  }

  /** The `l9`, `l8`, `l7`, `l5`, `l4` arguments of `landsat_collection`. */
  datatype Flags = Flags(l9: bool, l8: bool, l7: bool, l5: bool, l4: bool)

  predicate Enabled(f: Flags, s: Sensor) {
    match s
    case L9 => f.l9
    case L8 => f.l8
    case L7 => f.l7
    case L5 => f.l5
    case L4 => f.l4
  }

  /** Every pixel of `s` carries every band in `names`. */
  predicate Carries(s: Scene, names: seq<string>) {
    forall p :: p in s.pixels ==> forall n :: n in names ==> n in p.bands
  }

  /** What the catalogs provide: each holds scenes of its own sensor, with
      the QA band and that sensor's reflectance bands. */
  predicate WellFormed(c: Catalogs) {
    forall sensor: Sensor, s :: s in Catalog(c, sensor) ==>
      s.sensor == sensor && Carries(s, [QA_BAND]) && Carries(s, SourceBands(sensor))
  }

  lemma CatalogScene(c: Catalogs, sensor: Sensor, s: Scene)
    requires WellFormed(c) && s in Catalog(c, sensor)
    ensures s.sensor == sensor && Carries(s, [QA_BAND]) && Carries(s, SourceBands(sensor))
  {
  }

  // ---------------------------------------------------------------------
  // Scene filters

  function Filter(xs: seq<Scene>, keep: Scene -> bool): (r: seq<Scene>)
    ensures |r| <= |xs|
    ensures forall x :: x in r <==> x in xs && keep(x)
  {
    if xs == [] then []
    else (if keep(xs[0]) then [xs[0]] else []) + Filter(xs[1..], keep)
  }

  /** `filterBounds(aoi)`: the footprint meets the area of interest. */
  function FilterBounds(xs: seq<Scene>, aoi: set<int>): (r: seq<Scene>)
    ensures |r| <= |xs|
    ensures forall s :: s in r <==> s in xs && s.footprint * aoi != {}
  {
    Filter(xs, (s: Scene) => s.footprint * aoi != {})
  }

  /** `filterDate(start, end)`: start inclusive, end exclusive. */
  function FilterDate(xs: seq<Scene>, start: int, end: int): (r: seq<Scene>)
    ensures |r| <= |xs|
    ensures forall s :: s in r <==> s in xs && start <= s.timeStart < end
  {
    Filter(xs, (s: Scene) => start <= s.timeStart < end)
  }

  /** `filter(ee.Filter.lt("CLOUD_COVER", max_cc))`. */
  function FilterCloudCover(xs: seq<Scene>, maxCc: real): (r: seq<Scene>)
    ensures |r| <= |xs|
    ensures forall s :: s in r <==> s in xs && s.cloudCover < maxCc
  {
    Filter(xs, (s: Scene) => s.cloudCover < maxCc)
  }

  /** The three conditions `create_collection` puts on a scene. */
  predicate Admitted(s: Scene, start: int, end: int, aoi: set<int>, maxCc: real) {
    s.footprint * aoi != {} && start <= s.timeStart < end && s.cloudCover < maxCc
  }

  // ---------------------------------------------------------------------
  // Cloud masking and band selection of one scene

  /** `updateMask` with the cloud mask: a pixel stays valid only where it
      was valid and the mask is non-zero. */
  function MaskPixel(p: Pixel): (r: Pixel)
    requires QA_BAND in p.bands
    ensures r.bands == p.bands
    ensures var qa := p.bands[QA_BAND];
      r.valid <==> p.valid && Bit(qa, CLOUD_SHADOW_BIT) == 0 && Bit(qa, SNOW_BIT) == 0 && Bit(qa, CLEAR_BIT) == 1
  {
    CloudMaskKeepsIff(p.bands[QA_BAND]);
    p.(valid := p.valid && CloudMask(p.bands[QA_BAND]) != 0)
  }

  /** `cloud_mask_lsat_sr` applied to a scene. */
  function MaskScene(s: Scene): (r: Scene)
    requires Carries(s, [QA_BAND])
    ensures r.sensor == s.sensor && r.timeStart == s.timeStart
    ensures r.cloudCover == s.cloudCover && r.footprint == s.footprint
    ensures |r.pixels| == |s.pixels|
    ensures forall i :: 0 <= i < |s.pixels| ==>
      r.pixels[i].bands == s.pixels[i].bands &&
      var qa := s.pixels[i].bands[QA_BAND];
      (r.pixels[i].valid <==>
        (s.pixels[i].valid && Bit(qa, CLOUD_SHADOW_BIT) == 0 && Bit(qa, SNOW_BIT) == 0 && Bit(qa, CLEAR_BIT) == 1))
  {
    var pixels := seq(|s.pixels|, i requires 0 <= i < |s.pixels| =>
      assert s.pixels[i] in s.pixels;
      MaskPixel(s.pixels[i]));
    assert forall i :: 0 <= i < |s.pixels| ==> pixels[i] == MaskPixel(s.pixels[i]);
    MaskAll(s.pixels);
    s.(pixels := pixels)
  }

  lemma MaskAll(ps: seq<Pixel>)
    requires forall p :: p in ps ==> QA_BAND in p.bands
    ensures forall i :: 0 <= i < |ps| ==>
      var qa := ps[i].bands[QA_BAND];
      (CloudMask(qa) != 0 <==>
        Bit(qa, CLOUD_SHADOW_BIT) == 0 && Bit(qa, SNOW_BIT) == 0 && Bit(qa, CLEAR_BIT) == 1)
  {
    forall i | 0 <= i < |ps|
      ensures var qa := ps[i].bands[QA_BAND];
        (CloudMask(qa) != 0 <==>
          Bit(qa, CLOUD_SHADOW_BIT) == 0 && Bit(qa, SNOW_BIT) == 0 && Bit(qa, CLEAR_BIT) == 1)
    {
      assert ps[i] in ps;
      CloudMaskKeepsIff(ps[i].bands[QA_BAND]);
    }
  }

  /** No name occurs twice. */
  predicate Distinct(names: seq<string>) {
    forall i, j :: 0 <= i < j < |names| ==> names[i] != names[j]
  }

  /** Dropping the head of a list of distinct names leaves distinct names,
      none of them equal to the head. */
  lemma DistinctTail(names: seq<string>)
    requires |names| > 0 && Distinct(names)
    ensures Distinct(names[1..])
    ensures forall i :: 1 <= i < |names| ==> names[i] != names[0]
  {
    forall i, j | 0 <= i < j < |names[1..]| ensures names[1..][i] != names[1..][j] {
      assert names[1..][i] == names[i + 1] && names[1..][j] == names[j + 1];
    }
  }

  /** Adding the head pair to the renaming of the tails gives the renaming
      of the whole lists. */
  lemma RenameStep(m: map<string, int>, src: seq<string>, dst: seq<string>, rest: map<string, int>)
    requires |src| == |dst| > 0
    requires forall n :: n in src ==> n in m
    requires forall i :: 1 <= i < |dst| ==> dst[i] != dst[0]
    requires forall n :: n in rest <==> n in dst[1..]
    requires forall i :: 0 <= i < |dst[1..]| ==> rest[dst[1..][i]] == m[src[1..][i]]
    ensures forall n :: n in rest[dst[0] := m[src[0]]] <==> n in dst
    ensures forall i :: 0 <= i < |dst| ==> rest[dst[0] := m[src[0]]][dst[i]] == m[src[i]]
  {
    var r := rest[dst[0] := m[src[0]]];
    assert dst == [dst[0]] + dst[1..];
    forall i | 1 <= i < |dst| ensures r[dst[i]] == m[src[i]] {
      assert dst[1..][i - 1] == dst[i] && src[1..][i - 1] == src[i];
    }
  }

  /** `select(src, dst)` on one pixel's bands: only the `dst` names remain,
      each holding the value of the `src` band at the same position. */
  function RenameBands(m: map<string, int>, src: seq<string>, dst: seq<string>): (r: map<string, int>)
    requires |src| == |dst| && Distinct(dst)
    requires forall n :: n in src ==> n in m
    ensures forall n :: n in r <==> n in dst
    ensures forall i :: 0 <= i < |dst| ==> r[dst[i]] == m[src[i]]
  {
    if src == [] then map[]
    else
      DistinctTail(dst);
      assert forall n :: n in src[1..] ==> n in src;
      var rest := RenameBands(m, src[1..], dst[1..]);
      RenameStep(m, src, dst, rest);
      rest[dst[0] := m[src[0]]]
  }

  /** The `select` after `create_collection` and `apply_scale_factors` for one scene of `sensor`. */
  function SelectScene(s: Scene, sensor: Sensor): (r: Scene)
    requires Carries(s, SourceBands(sensor))
    ensures r.sensor == s.sensor && r.timeStart == s.timeStart
    ensures |r.pixels| == |s.pixels|
    ensures forall i :: 0 <= i < |s.pixels| ==> r.pixels[i].valid == s.pixels[i].valid
  {
    var pixels := seq(|s.pixels|, i requires 0 <= i < |s.pixels| =>
      assert s.pixels[i] in s.pixels;
      Pixel(RenameBands(s.pixels[i].bands, SourceBands(sensor), OutputBands), s.pixels[i].valid));
    s.(pixels := pixels)
  }

  /** After `SelectScene` every pixel holds exactly the six common bands, each
      the value of the sensor's matching source band. */
  lemma SelectSceneBands(s: Scene, sensor: Sensor)
    requires Carries(s, SourceBands(sensor))
    ensures forall i :: 0 <= i < |s.pixels| ==>
      (forall n :: n in SelectScene(s, sensor).pixels[i].bands <==> n in OutputBands) &&
      (forall k :: 0 <= k < 6 ==>
        SelectScene(s, sensor).pixels[i].bands[OutputBands[k]] == s.pixels[i].bands[SourceBands(sensor)[k]])
  {
    assert Distinct(OutputBands);
  }

  // ---------------------------------------------------------------------
  // create_collection and one sensor's part of landsat_collection

  function MapMask(xs: seq<Scene>): (r: seq<Scene>)
    requires forall s :: s in xs ==> Carries(s, [QA_BAND])
    ensures |r| == |xs| && forall i :: 0 <= i < |xs| ==> r[i] == MaskScene(xs[i])
  {
    seq(|xs|, i requires 0 <= i < |xs| => assert xs[i] in xs; MaskScene(xs[i]))
  }

  /** `create_collection`: the three filters in sequence, then the cloud mask on every scene. */
  function CreateCollection(xs: seq<Scene>, start: int, end: int, aoi: set<int>, maxCc: real): seq<Scene>
    requires forall s :: s in xs ==> Carries(s, [QA_BAND])
  {
    MapMask(FilterCloudCover(FilterDate(FilterBounds(xs, aoi), start, end), maxCc))
  }

  /** A masked scene is in the result exactly when its scene is in the input
      and passes all three filters. */
  lemma CreateCollectionAdmits(xs: seq<Scene>, start: int, end: int, aoi: set<int>, maxCc: real)
    requires forall s :: s in xs ==> Carries(s, [QA_BAND])
    ensures |CreateCollection(xs, start, end, aoi, maxCc)| <= |xs|
    ensures forall x :: x in CreateCollection(xs, start, end, aoi, maxCc) <==>
      exists s :: s in xs && Admitted(s, start, end, aoi, maxCc) && x == MaskScene(s)
  {
    var ys := FilterCloudCover(FilterDate(FilterBounds(xs, aoi), start, end), maxCc);
    assert forall s :: s in ys <==> s in xs && Admitted(s, start, end, aoi, maxCc);
    MapMaskMembers(ys);
    assert CreateCollection(xs, start, end, aoi, maxCc) == MapMask(ys);
  }

  lemma MapMaskMembers(ys: seq<Scene>)
    requires forall s :: s in ys ==> Carries(s, [QA_BAND])
    ensures forall x :: x in MapMask(ys) <==> exists s :: s in ys && x == MaskScene(s)
  {
    var r := MapMask(ys);
    forall x | x in r
      ensures exists s :: s in ys && x == MaskScene(s)
    {
      var i :| 0 <= i < |r| && r[i] == x;
      assert ys[i] in ys;
    }
    forall x | exists s :: s in ys && x == MaskScene(s)
      ensures x in r
    {
      var s :| s in ys && x == MaskScene(s);
      var i :| 0 <= i < |ys| && ys[i] == s;
      assert r[i] == x;
    }
  }

  /** The input scene a scene of `create_collection`'s result comes from. */
  lemma AdmittedSource(xs: seq<Scene>, start: int, end: int, aoi: set<int>, maxCc: real, m: Scene) returns (s: Scene)
    requires forall s :: s in xs ==> Carries(s, [QA_BAND])
    requires m in CreateCollection(xs, start, end, aoi, maxCc)
    ensures s in xs && Admitted(s, start, end, aoi, maxCc) && m == MaskScene(s)
  {
    CreateCollectionAdmits(xs, start, end, aoi, maxCc);
    s :| s in xs && Admitted(s, start, end, aoi, maxCc) && m == MaskScene(s);
  }

  /** The catalog a sensor's block starts from: Landsat 7 is first cut at 2021-10-30. */
  function BaseCatalog(c: Catalogs, sensor: Sensor): seq<Scene> {
    if sensor == L7 then FilterDate(Catalog(c, L7), L7_START, L7_END) else Catalog(c, sensor)
  }

  /** Whether a catalog scene of `sensor` reaches the merged collection. */
  predicate Selected(s: Scene, sensor: Sensor, start: int, end: int, aoi: set<int>, maxCc: real) {
    (sensor == L7 ==> L7_START <= s.timeStart < L7_END) && Admitted(s, start, end, aoi, maxCc)
  }

  function MapSelect(xs: seq<Scene>, sensor: Sensor): (r: seq<Scene>)
    requires forall s :: s in xs ==> Carries(s, SourceBands(sensor))
    ensures |r| == |xs| && forall i :: 0 <= i < |xs| ==> r[i] == SelectScene(xs[i], sensor)
  {
    seq(|xs|, i requires 0 <= i < |xs| => assert xs[i] in xs; SelectScene(xs[i], sensor))
  }

  /** Masking keeps every band of every pixel. */
  lemma CarriesAfterMask(s: Scene, sensor: Sensor)
    requires Carries(s, [QA_BAND]) && Carries(s, SourceBands(sensor))
    ensures Carries(MaskScene(s), SourceBands(sensor))
  {
    var r := MaskScene(s);
    forall p | p in r.pixels ensures forall n :: n in SourceBands(sensor) ==> n in p.bands {
      var i :| 0 <= i < |r.pixels| && r.pixels[i] == p;
      assert s.pixels[i] in s.pixels;
    }
  }

  lemma BaseCatalogCarries(c: Catalogs, sensor: Sensor)
    requires WellFormed(c)
    ensures forall s :: s in BaseCatalog(c, sensor) ==>
      s.sensor == sensor && Carries(s, [QA_BAND]) && Carries(s, SourceBands(sensor))
  {
    forall s | s in BaseCatalog(c, sensor)
      ensures s.sensor == sensor && Carries(s, [QA_BAND]) && Carries(s, SourceBands(sensor))
    {
      CarriesAfterMask(s, sensor);
    }
  }

  /** One sensor's block of `landsat_collection`: `create_collection`, then `select`. */
  function SensorCollection(c: Catalogs, sensor: Sensor, start: int, end: int, aoi: set<int>, maxCc: real): seq<Scene>
    requires WellFormed(c)
  {
    var base := BaseCatalog(c, sensor);
    BaseCatalogCarries(c, sensor);
    var masked := CreateCollection(base, start, end, aoi, maxCc);
    CreateCollectionAdmits(base, start, end, aoi, maxCc);
    assert forall x :: x in masked ==> Carries(x, SourceBands(sensor)) by {
      forall x | x in masked ensures Carries(x, SourceBands(sensor)) {
        var s :| s in base && Admitted(s, start, end, aoi, maxCc) && x == MaskScene(s);
        CarriesAfterMask(s, sensor);
      }
    }
    MapSelect(masked, sensor)
  }

  /** `x` is the masked, renamed form of the catalog scene `s` of `sensor`,
      and the filters admit `s`. */
  predicate Yields(c: Catalogs, sensor: Sensor, start: int, end: int, aoi: set<int>, maxCc: real, s: Scene, x: Scene) {
    s in Catalog(c, sensor) && Selected(s, sensor, start, end, aoi, maxCc) &&
    CarriesMasked(s, sensor) && x == SelectScene(MaskScene(s), sensor)
  }

  lemma BaseCatalogMembers(c: Catalogs, sensor: Sensor)
    ensures forall s :: s in BaseCatalog(c, sensor) <==>
      s in Catalog(c, sensor) && (sensor == L7 ==> L7_START <= s.timeStart < L7_END)
  {
  }

  lemma MaskedSound(c: Catalogs, sensor: Sensor, start: int, end: int, aoi: set<int>, maxCc: real, m: Scene)
    requires WellFormed(c)
    requires forall s :: s in BaseCatalog(c, sensor) ==> Carries(s, [QA_BAND])
    requires m in CreateCollection(BaseCatalog(c, sensor), start, end, aoi, maxCc)
    ensures exists s :: (s in Catalog(c, sensor) && Selected(s, sensor, start, end, aoi, maxCc) &&
      CarriesMasked(s, sensor) && s.sensor == sensor && m == MaskScene(s))
  {
    var base := BaseCatalog(c, sensor);
    var s := AdmittedSource(base, start, end, aoi, maxCc, m);
    BaseCatalogMembers(c, sensor);
    assert s in Catalog(c, sensor) && (sensor == L7 ==> L7_START <= s.timeStart < L7_END);
    assert Selected(s, sensor, start, end, aoi, maxCc);
    CatalogScene(c, sensor, s);
    CarriesAfterMask(s, sensor);
    assert CarriesMasked(s, sensor);
  }

  lemma SensorCollectionSound(c: Catalogs, sensor: Sensor, start: int, end: int, aoi: set<int>, maxCc: real, x: Scene)
    requires WellFormed(c)
    requires x in SensorCollection(c, sensor, start, end, aoi, maxCc)
    ensures exists s :: Yields(c, sensor, start, end, aoi, maxCc, s, x)
    ensures x.sensor == sensor
  {
    BaseCatalogCarries(c, sensor);
    var masked := CreateCollection(BaseCatalog(c, sensor), start, end, aoi, maxCc);
    var r := SensorCollection(c, sensor, start, end, aoi, maxCc);
    var i :| 0 <= i < |r| && r[i] == x;
    assert masked[i] in masked;
    MaskedSound(c, sensor, start, end, aoi, maxCc, masked[i]);
    var s :| s in Catalog(c, sensor) && Selected(s, sensor, start, end, aoi, maxCc) &&
      CarriesMasked(s, sensor) && s.sensor == sensor && masked[i] == MaskScene(s);
    assert x == SelectScene(masked[i], sensor);
    assert Yields(c, sensor, start, end, aoi, maxCc, s, x);
  }

  lemma SensorCollectionComplete(c: Catalogs, sensor: Sensor, start: int, end: int, aoi: set<int>, maxCc: real, s: Scene, x: Scene)
    requires WellFormed(c)
    requires Yields(c, sensor, start, end, aoi, maxCc, s, x)
    ensures x in SensorCollection(c, sensor, start, end, aoi, maxCc)
  {
    var base := BaseCatalog(c, sensor);
    BaseCatalogCarries(c, sensor);
    BaseCatalogMembers(c, sensor);
    assert s in base;
    AdmittedInCollection(base, start, end, aoi, maxCc, s);
    var masked := CreateCollection(base, start, end, aoi, maxCc);
    assert forall y :: y in masked ==> Carries(y, SourceBands(sensor)) by {
      forall y | y in masked ensures Carries(y, SourceBands(sensor)) {
        var s' := AdmittedSource(base, start, end, aoi, maxCc, y);
        CarriesAfterMask(s', sensor);
      }
    }
    MapSelectContains(masked, sensor, MaskScene(s));
    assert SensorCollection(c, sensor, start, end, aoi, maxCc) == MapSelect(masked, sensor);
  }

  /** An admitted input scene reaches `create_collection`'s result, masked. */
  lemma AdmittedInCollection(xs: seq<Scene>, start: int, end: int, aoi: set<int>, maxCc: real, s: Scene)
    requires forall s :: s in xs ==> Carries(s, [QA_BAND])
    requires s in xs && Admitted(s, start, end, aoi, maxCc)
    ensures MaskScene(s) in CreateCollection(xs, start, end, aoi, maxCc)
  {
    CreateCollectionAdmits(xs, start, end, aoi, maxCc);
  }

  lemma MapSelectContains(xs: seq<Scene>, sensor: Sensor, y: Scene)
    requires forall s :: s in xs ==> Carries(s, SourceBands(sensor))
    requires y in xs
    ensures SelectScene(y, sensor) in MapSelect(xs, sensor)
  {
    var i :| 0 <= i < |xs| && xs[i] == y;
    assert MapSelect(xs, sensor)[i] == SelectScene(y, sensor);
  }

  /** A scene is in a sensor's collection exactly when it is the masked and
      renamed form of a catalog scene that the filters admit. */
  lemma SensorCollectionMembers(c: Catalogs, sensor: Sensor, start: int, end: int, aoi: set<int>, maxCc: real)
    requires WellFormed(c)
    ensures forall x :: x in SensorCollection(c, sensor, start, end, aoi, maxCc) <==>
      exists s :: Yields(c, sensor, start, end, aoi, maxCc, s, x)
    ensures forall x :: x in SensorCollection(c, sensor, start, end, aoi, maxCc) ==> x.sensor == sensor
  {
    forall x | x in SensorCollection(c, sensor, start, end, aoi, maxCc)
      ensures (exists s :: Yields(c, sensor, start, end, aoi, maxCc, s, x)) && x.sensor == sensor
    {
      SensorCollectionSound(c, sensor, start, end, aoi, maxCc, x);
    }
    forall x, s | Yields(c, sensor, start, end, aoi, maxCc, s, x)
      ensures x in SensorCollection(c, sensor, start, end, aoi, maxCc)
    {
      SensorCollectionComplete(c, sensor, start, end, aoi, maxCc, s, x);
    }
  }

  /** The guard that makes `SelectScene(MaskScene(s), sensor)` well defined. */
  predicate CarriesMasked(s: Scene, sensor: Sensor) {
    Carries(s, [QA_BAND]) && Carries(MaskScene(s), SourceBands(sensor))
  }

  // ---------------------------------------------------------------------
  // The merged collection: a reference definition and the step-by-step method

  /** The sensors among `sensors` that are enabled, in their order. */
  function EnabledAmong(f: Flags, sensors: seq<Sensor>): (r: seq<Sensor>)
    ensures forall s :: s in r <==> s in sensors && Enabled(f, s)
  {
    if sensors == [] then []
    else (if Enabled(f, sensors[0]) then [sensors[0]] else []) + EnabledAmong(f, sensors[1..])
  }

  /** The collections of `sensors`, concatenated in that order. */
  function MergeSensors(c: Catalogs, sensors: seq<Sensor>, start: int, end: int, aoi: set<int>, maxCc: real): seq<Scene>
    requires WellFormed(c)
  {
    if sensors == [] then []
    else SensorCollection(c, sensors[0], start, end, aoi, maxCc) + MergeSensors(c, sensors[1..], start, end, aoi, maxCc)
  }

  /** What the merge stage yields: nothing when no sensor is enabled (the
      source then fails at its first `coll.map`), else the enabled sensors'
      collections in the fixed merge order. */
  function Assembled(c: Catalogs, f: Flags, sensors: seq<Sensor>, start: int, end: int, aoi: set<int>, maxCc: real): Option<seq<Scene>>
    requires WellFormed(c)
  {
    var enabled := EnabledAmong(f, sensors);
    if enabled == [] then None else Some(MergeSensors(c, enabled, start, end, aoi, maxCc))
  }

  lemma {:induction false} EnabledAmongAppend(f: Flags, xs: seq<Sensor>, s: Sensor)
    ensures EnabledAmong(f, xs + [s]) == EnabledAmong(f, xs) + (if Enabled(f, s) then [s] else [])
    decreases |xs|
  {
    if xs == [] {
      assert [] + [s] == [s];
    } else {
      assert (xs + [s])[1..] == xs[1..] + [s];
      EnabledAmongAppend(f, xs[1..], s);
    }
  }

  lemma {:induction false} MergeSensorsAppend(c: Catalogs, xs: seq<Sensor>, s: Sensor, start: int, end: int, aoi: set<int>, maxCc: real)
    requires WellFormed(c)
    ensures MergeSensors(c, xs + [s], start, end, aoi, maxCc)
      == MergeSensors(c, xs, start, end, aoi, maxCc) + SensorCollection(c, s, start, end, aoi, maxCc)
    decreases |xs|
  {
    if xs == [] {
      assert [] + [s] == [s];
      assert [s][1..] == [];
    } else {
      assert (xs + [s])[1..] == xs[1..] + [s];
      assert (xs + [s])[0] == xs[0];
      MergeSensorsAppend(c, xs[1..], s, start, end, aoi, maxCc);
    }
  }

  /** One conditional merge block, as the reference definition sees it. */
  lemma AssembledStep(c: Catalogs, f: Flags, xs: seq<Sensor>, s: Sensor, ys: seq<Sensor>, start: int, end: int, aoi: set<int>, maxCc: real)
    requires WellFormed(c)
    requires ys == xs + [s]
    ensures Assembled(c, f, ys, start, end, aoi, maxCc) ==
      if !Enabled(f, s) then Assembled(c, f, xs, start, end, aoi, maxCc)
      else
        var prev := Assembled(c, f, xs, start, end, aoi, maxCc);
        var current := SensorCollection(c, s, start, end, aoi, maxCc);
        Some(if prev.Some? then prev.value + current else current)
  {
    EnabledAmongAppend(f, xs, s);
    var e := EnabledAmong(f, xs);
    var current := SensorCollection(c, s, start, end, aoi, maxCc);
    if Enabled(f, s) {
      assert EnabledAmong(f, xs + [s]) == e + [s];
      MergeSensorsAppend(c, e, s, start, end, aoi, maxCc);
      if e == [] {
        assert MergeSensors(c, e, start, end, aoi, maxCc) == [];
        assert MergeSensors(c, e + [s], start, end, aoi, maxCc) == current;
      } else {
        assert Assembled(c, f, xs, start, end, aoi, maxCc) == Some(MergeSensors(c, e, start, end, aoi, maxCc));
      }
    } else {
      assert EnabledAmong(f, xs + [s]) == e;
    }
  }

  /** `landsat_collection` up to its first `map` (lines 150-235): the
      accumulator `coll` starts as nothing and each enabled sensor's
      collection is merged onto it in turn. */
  method LandsatCollection(c: Catalogs, f: Flags, start: int, end: int, aoi: set<int>, maxCc: real)
    returns (coll: Option<seq<Scene>>)
    requires WellFormed(c)
    ensures coll == Assembled(c, f, MergeOrder, start, end, aoi, maxCc)
  {
    coll := None;

    if f.l9 {
      coll := Some(SensorCollection(c, L9, start, end, aoi, maxCc));
    }
    AssembledStep(c, f, [], L9, [L9], start, end, aoi, maxCc);
    assert coll == Assembled(c, f, [L9], start, end, aoi, maxCc);

    if f.l8 {
      var l8Coll := SensorCollection(c, L8, start, end, aoi, maxCc);
      coll := if coll.Some? then Some(coll.value + l8Coll) else Some(l8Coll);
    }
    AssembledStep(c, f, [L9], L8, [L9, L8], start, end, aoi, maxCc);
    assert coll == Assembled(c, f, [L9, L8], start, end, aoi, maxCc);

    if f.l7 {
      var l7Coll := SensorCollection(c, L7, start, end, aoi, maxCc);
      coll := if coll.Some? then Some(coll.value + l7Coll) else Some(l7Coll);
    }
    AssembledStep(c, f, [L9, L8], L7, [L9, L8, L7], start, end, aoi, maxCc);
    assert coll == Assembled(c, f, [L9, L8, L7], start, end, aoi, maxCc);

    if f.l5 {
      var l5Coll := SensorCollection(c, L5, start, end, aoi, maxCc);
      coll := if coll.Some? then Some(coll.value + l5Coll) else Some(l5Coll);
    }
    AssembledStep(c, f, [L9, L8, L7], L5, [L9, L8, L7, L5], start, end, aoi, maxCc);
    assert coll == Assembled(c, f, [L9, L8, L7, L5], start, end, aoi, maxCc);

    if f.l4 {
      var l4Coll := SensorCollection(c, L4, start, end, aoi, maxCc);
      coll := if coll.Some? then Some(coll.value + l4Coll) else Some(l4Coll);
    }
    AssembledStep(c, f, [L9, L8, L7, L5], L4, MergeOrder, start, end, aoi, maxCc);
  }

  // ---------------------------------------------------------------------
  // What the merged collection is

  /** The collection is missing exactly when no sensor is enabled. */
  lemma AssembledNoneIff(c: Catalogs, f: Flags, start: int, end: int, aoi: set<int>, maxCc: real)
    requires WellFormed(c)
    ensures Assembled(c, f, MergeOrder, start, end, aoi, maxCc).None? <==>
      !f.l9 && !f.l8 && !f.l7 && !f.l5 && !f.l4
  {
    var e := EnabledAmong(f, MergeOrder);
    if f.l9 { assert L9 in e; }
    if f.l8 { assert L8 in e; }
    if f.l7 { assert L7 in e; }
    if f.l5 { assert L5 in e; }
    if f.l4 { assert L4 in e; }
    if e != [] { assert e[0] in e; }
  }

  /** The default arguments of `landsat_collection`: every sensor on. */
  const DefaultFlags: Flags := Flags(true, true, true, true, true)

  /** The default `max_cc`. */
  const DEFAULT_MAX_CC: real := 75.0

  /** When every sensor is enabled, the enabled sensors are the list itself. */
  lemma {:induction false} EnabledAmongAll(f: Flags, sensors: seq<Sensor>)
    requires f.l9 && f.l8 && f.l7 && f.l5 && f.l4
    ensures EnabledAmong(f, sensors) == sensors
    decreases |sensors|
  {
    if sensors != [] {
      EnabledAmongAll(f, sensors[1..]);
      assert Enabled(f, sensors[0]);
      assert sensors == [sensors[0]] + sensors[1..];
    }
  }

  /** With the default flags every sensor of the merge order is enabled. */
  lemma DefaultsEnableAll()
    ensures EnabledAmong(DefaultFlags, MergeOrder) == MergeOrder
  {
    EnabledAmongAll(DefaultFlags, MergeOrder);
  }

  /** Called with its defaults, `landsat_collection` merges all five sensors
      in the order L9, L8, L7, L5, L4 with a cloud-cover limit of 75. */
  lemma DefaultsMergeAll(c: Catalogs, start: int, end: int, aoi: set<int>)
    requires WellFormed(c)
    ensures Assembled(c, DefaultFlags, MergeOrder, start, end, aoi, DEFAULT_MAX_CC) ==
      Some(MergeSensors(c, MergeOrder, start, end, aoi, DEFAULT_MAX_CC))
  {
    DefaultsEnableAll();
  }

  /** Scenes of the merge are exactly the selected scenes of enabled sensors. */
  lemma {:induction false} MergeSensorsMembers(c: Catalogs, sensors: seq<Sensor>, start: int, end: int, aoi: set<int>, maxCc: real)
    requires WellFormed(c)
    ensures forall x :: x in MergeSensors(c, sensors, start, end, aoi, maxCc) <==>
      exists sensor, s :: sensor in sensors && Yields(c, sensor, start, end, aoi, maxCc, s, x)
    decreases |sensors|
  {
    if sensors != [] {
      SensorCollectionMembers(c, sensors[0], start, end, aoi, maxCc);
      MergeSensorsMembers(c, sensors[1..], start, end, aoi, maxCc);
      forall sensor | sensor in sensors ensures sensor == sensors[0] || sensor in sensors[1..] {
        var i :| 0 <= i < |sensors| && sensors[i] == sensor;
        if i > 0 { assert sensors[1..][i - 1] == sensor; }
      }
    }
  }

  /** A scene is in the merged collection exactly when it is the masked,
      renamed form of an admitted scene of an enabled sensor's catalog
      (for Landsat 7, one acquired before 2021-10-30). */
  lemma LandsatCollectionMembers(c: Catalogs, f: Flags, start: int, end: int, aoi: set<int>, maxCc: real)
    requires WellFormed(c)
    requires Assembled(c, f, MergeOrder, start, end, aoi, maxCc).Some?
    ensures forall x :: x in Assembled(c, f, MergeOrder, start, end, aoi, maxCc).value <==>
      exists sensor, s :: Enabled(f, sensor) && Yields(c, sensor, start, end, aoi, maxCc, s, x)
  {
    var e := EnabledAmong(f, MergeOrder);
    MergeSensorsMembers(c, e, start, end, aoi, maxCc);
    assert forall sensor :: sensor in e <==> Enabled(f, sensor) by {
      forall sensor ensures sensor in MergeOrder {
        match sensor
        case L9 => assert MergeOrder[0] == L9;
        case L8 => assert MergeOrder[1] == L8;
        case L7 => assert MergeOrder[2] == L7;
        case L5 => assert MergeOrder[3] == L5;
        case L4 => assert MergeOrder[4] == L4;
      }
    }
  }

  predicate SortedByRank(xs: seq<Scene>) {
    forall i, j :: 0 <= i < j < |xs| ==> Rank(xs[i].sensor) <= Rank(xs[j].sensor)
  }

  predicate StrictlyRanked(sensors: seq<Sensor>) {
    forall i, j :: 0 <= i < j < |sensors| ==> Rank(sensors[i]) < Rank(sensors[j])
  }

  lemma StrictlyRankedTail(sensors: seq<Sensor>)
    requires StrictlyRanked(sensors) && sensors != []
    ensures StrictlyRanked(sensors[1..])
    ensures forall x :: x in sensors[1..] ==> Rank(sensors[0]) < Rank(x)
  {
    var rest := sensors[1..];
    forall i, j | 0 <= i < j < |rest| ensures Rank(rest[i]) < Rank(rest[j]) {
      assert rest[i] == sensors[i + 1] && rest[j] == sensors[j + 1];
    }
    forall x | x in rest ensures Rank(sensors[0]) < Rank(x) {
      var k :| 0 <= k < |rest| && rest[k] == x;
      assert sensors[k + 1] == x;
    }
  }

  lemma {:induction false} EnabledAmongRanked(f: Flags, sensors: seq<Sensor>)
    requires StrictlyRanked(sensors)
    ensures StrictlyRanked(EnabledAmong(f, sensors))
    decreases |sensors|
  {
    if sensors != [] {
      StrictlyRankedTail(sensors);
      EnabledAmongRanked(f, sensors[1..]);
    }
  }

  /** One sensor's scenes in front of later sensors' sorted scenes stay sorted. */
  lemma SortedInFront(head: seq<Scene>, tail: seq<Scene>, sensor: Sensor)
    requires forall x :: x in head ==> x.sensor == sensor
    requires forall x :: x in tail ==> Rank(sensor) < Rank(x.sensor)
    requires SortedByRank(tail)
    ensures SortedByRank(head + tail)
  {
    var all := head + tail;
    forall i, j | 0 <= i < j < |all| ensures Rank(all[i].sensor) <= Rank(all[j].sensor) {
      if j < |head| {
        assert all[i] in head && all[j] in head;
      } else if i < |head| {
        assert all[i] in head;
        assert all[j] == tail[j - |head|] && tail[j - |head|] in tail;
      } else {
        assert all[i] == tail[i - |head|] && all[j] == tail[j - |head|];
      }
    }
  }

  /** Scenes of an earlier sensor in the merge order come first. */
  lemma {:induction false} MergeSensorsGrouped(c: Catalogs, sensors: seq<Sensor>, start: int, end: int, aoi: set<int>, maxCc: real)
    requires WellFormed(c)
    requires StrictlyRanked(sensors)
    ensures SortedByRank(MergeSensors(c, sensors, start, end, aoi, maxCc))
    ensures forall x :: x in MergeSensors(c, sensors, start, end, aoi, maxCc) ==> x.sensor in sensors
    decreases |sensors|
  {
    if sensors != [] {
      var rest := sensors[1..];
      StrictlyRankedTail(sensors);
      MergeSensorsGrouped(c, rest, start, end, aoi, maxCc);
      SensorCollectionMembers(c, sensors[0], start, end, aoi, maxCc);
      var head := SensorCollection(c, sensors[0], start, end, aoi, maxCc);
      var tail := MergeSensors(c, rest, start, end, aoi, maxCc);
      assert MergeSensors(c, sensors, start, end, aoi, maxCc) == head + tail;
      SortedInFront(head, tail, sensors[0]);
      assert sensors[0] in sensors;
      assert forall x :: x in rest ==> x in sensors;
    }
  }

  /** The merged collection lists its scenes sensor by sensor, in the order
      l9, l8, l7, l5, l4, and holds scenes of enabled sensors only. */
  lemma LandsatCollectionGrouped(c: Catalogs, f: Flags, start: int, end: int, aoi: set<int>, maxCc: real)
    requires WellFormed(c)
    requires Assembled(c, f, MergeOrder, start, end, aoi, maxCc).Some?
    ensures SortedByRank(Assembled(c, f, MergeOrder, start, end, aoi, maxCc).value)
    ensures forall x :: x in Assembled(c, f, MergeOrder, start, end, aoi, maxCc).value ==> Enabled(f, x.sensor)
  {
    var e := EnabledAmong(f, MergeOrder);
    MergeOrderRanked();
    EnabledAmongRanked(f, MergeOrder);
    MergeSensorsGrouped(c, e, start, end, aoi, maxCc);
    assert Assembled(c, f, MergeOrder, start, end, aoi, maxCc).value == MergeSensors(c, e, start, end, aoi, maxCc);
  }

  lemma MergeOrderRanked()
    ensures StrictlyRanked(MergeOrder)
  {
  }
}
