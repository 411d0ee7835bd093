# ee-preproc Landsat core, modelled in Dafny

This is a model of the Landsat part of `ee-preproc`, a Python package built on
Google Earth Engine. The package assembles one surface-reflectance image
collection from Landsat 4, 5, 7, 8 and 9, and it can correct each image for
viewing geometry. Earth Engine evaluates everything remotely and per pixel.
The model keeps the logic the package itself decides and proves properties
about it.

It has six modules:

- `QaBits` (`qa_bits.dfy`) covers `bitwise_extract` on integers:
  - the Python-falsy `to_bit` default;
  - the shift and the low-bit mask;
  - the per-pixel cloud mask of `cloud_mask_lsat_sr`, which reads cloud shadow bit 4, snow bit 5 and clear bit 6 of `QA_PIXEL`.
- `Collection` (`collection.dfy`) covers `create_collection` and `landsat_collection`:
  - a catalog is a sequence of scenes;
  - the bounds, date and cloud-cover filters are sequence filters;
  - the cloud mask changes each pixel's validity;
  - `select` renames the six reflectance bands to common names;
  - Landsat 7 is cut at 2021-10-30.
  - `landsat_collection` is an imperative method. It holds the five conditional rebinds of `coll` and is proved equal to a reference definition.
- `Brdf` (`brdf.dfy`) covers `apply`, `_apply`, `_correct_band` and `_kvol`:
  - the c-factor correction, with the six published coefficient triples;
  - the two Ross-thick kernel expressions.
- `SunAngles` (`sun_angles.dfy`) covers the sun-azimuth stage of `sun_angles.create`: the clamp, the quadrant resolution and the wrap.
- `ViewAngles` (`view_angles.dfy`) covers the linear view-zenith interpolation and the view azimuth from the footprint's edge centres.
- `Trig` (`trig.dfy`) is a record holding pi and the trigonometric functions as uninterpreted values. Predicates on it state the facts the proofs need, such as the range of asin or atan, or sin 0 = 0.

The code decides the following edge cases; the model follows it:

- The sine of the south-west sun azimuth is clamped to [-1, 1] before its arcsine. The cosine is not clamped; it is only compared with 0.
- The final sun azimuth lies in (0, 2 pi]. A value of exactly 2 pi is kept rather than wrapped to 0, because the comparison at `sun_angles.py:70` is strict.
- The argument of `acos` in `_kvol` is not clamped.

One place where the documentation and the code disagree: the docstring of `_correct_band` names a separate geometric kernel, but the code never computes one and multiplies the geometric coefficient by the volumetric kernel `kvol`. The model follows the code: `pred = (f_vol + f_geo) * kvol + f_iso`.

## Model

| member | source | states |
|---|---|---|
| QaBits.LeftShift | ee_preproc/landsat/landsat_collection.py:101 | `1.leftShift(n)` (any `v.leftShift(n)`) is `v` times 2^n |
| QaBits.BitwiseExtract | ee_preproc/landsat/landsat_collection.py:97-102 | `bitwise_extract` returns a value below 2^(to-from+1); `ExtractIsFloorMod`, `ExtractSingleBit` and `ExtractDependsOnlyOnField` pin down which value |
| QaBits.BitAnd | ee_preproc/landsat/landsat_collection.py:102 | `bitwiseAnd` with a non-negative mask never exceeds the mask; `BitAndLowMaskIsMod` gives its value for a low-bit mask |
| QaBits.ShiftRightIsFloorDiv | ee_preproc/landsat/landsat_collection.py:102 | the arithmetic right shift by `n` is floor division by 2^n, negative values included |
| QaBits.ShiftRight | ee_preproc/landsat/landsat_collection.py:102 | `rightShift(from_bit)`, one bit at a time; `ShiftRightIsFloorDiv` proves it is floor division by 2^from_bit |
| QaBits.BitAndLowMaskIsMod | ee_preproc/landsat/landsat_collection.py:100-102 | and-ing with the mask `(1 << k) - 1` leaves the value modulo 2^k |
| QaBits.LowBitsAgree | ee_preproc/landsat/landsat_collection.py:102 | two integers have the same remainder modulo 2^k exactly when their k lowest bits agree (both directions) |
| QaBits.ExtractIsFloorMod | ee_preproc/landsat/landsat_collection.py:97-102 | `bitwise_extract` returns `(v / 2^from) mod 2^(to-from+1)`, which lies in [0, 2^(to-from+1)) |
| QaBits.ExtractSingleBit | ee_preproc/landsat/landsat_collection.py:98-99 | with `to_bit` missing or 0 the mask is one bit wide and the result is bit `from_bit`, so 0 or 1 |
| QaBits.ResolveToBit | ee_preproc/landsat/landsat_collection.py:98-99 | a missing or zero `to_bit` becomes `from_bit`; `ExtractSingleBit` gives the one-bit extract that results |
| QaBits.MaskSize | ee_preproc/landsat/landsat_collection.py:100 | `1 + to_bit - from_bit`; `ExtractIsFloorMod` uses it as the field width and `ExtractSingleBit` proves it is 1 for a falsy `to_bit` |
| QaBits.ExtractDependsOnlyOnField | ee_preproc/landsat/landsat_collection.py:97-102 | two words give the same extract exactly when they agree on bits `from_bit` to `to_bit` (both directions) |
| QaBits.CloudMaskKeepsIff | ee_preproc/landsat/landsat_collection.py:105-116 | the mask is 0 or 1, and it is 1 exactly when cloud shadow and snow are 0 and clear is 1 |
| QaBits.CloudMask | ee_preproc/landsat/landsat_collection.py:105-116 | the mask handed to `updateMask` is 0 or 1; `CloudMaskKeepsIff` says when it is 1 |
| QaBits.CloudDoubleNegationCancels | ee_preproc/landsat/landsat_collection.py:109-114 | the two `.Not()` calls on the clear bit give the bit itself back |
| QaBits.CloudMaskIgnoresOtherBits | ee_preproc/landsat/landsat_collection.py:105-116 | words that agree on bits 4, 5 and 6 get the same mask; the water bit 7 is not used |
| Collection.Filter | ee_preproc/landsat/landsat_collection.py:122-124 | a filter keeps exactly the scenes satisfying its condition and never lengthens the collection |
| Collection.FilterBounds | ee_preproc/landsat/landsat_collection.py:122 | keeps exactly the scenes whose footprint meets the area of interest, never lengthening the collection |
| Collection.FilterDate | ee_preproc/landsat/landsat_collection.py:123 | keeps exactly the scenes with `start <= time_start < end`, never lengthening the collection |
| Collection.FilterCloudCover | ee_preproc/landsat/landsat_collection.py:124 | keeps exactly the scenes with `CLOUD_COVER < max_cc`, never lengthening the collection |
| Collection.MaskScene | ee_preproc/landsat/landsat_collection.py:105-116 | a masked scene keeps its properties and band values; a pixel stays valid exactly when it was valid and the QA bits say clear, no shadow, no snow |
| Collection.MaskPixel | ee_preproc/landsat/landsat_collection.py:111-116 | `updateMask` keeps a pixel's bands, and the pixel stays valid exactly when it was valid and the QA bits say clear, no shadow, no snow |
| Collection.RenameBands | ee_preproc/landsat/landsat_collection.py:159-161 | `select(src, dst)` keeps exactly the `dst` bands, and band `dst[i]` holds the old value of `src[i]` |
| Collection.SourceBands | ee_preproc/landsat/landsat_collection.py:159-227 | the six SR bands selected for each sensor, one per common output name; `SelectSceneBands` states that band k of the sensor becomes output band k |
| Collection.SelectScene | ee_preproc/landsat/landsat_collection.py:158-162 | `select` keeps a scene's sensor, start time, pixel count and pixel validity |
| Collection.SelectSceneBands | ee_preproc/landsat/landsat_collection.py:152-227 | after `select` every pixel has exactly the six common bands, each holding the value of the sensor's matching SR band |
| Collection.MapMask | ee_preproc/landsat/landsat_collection.py:127 | `map(cloud_mask_lsat_sr)` masks every scene in place and keeps the order and length |
| Collection.CreateCollectionAdmits | ee_preproc/landsat/landsat_collection.py:119-127 | a scene is in `create_collection`'s result exactly when it is the masked form of an input scene that passes the bounds, date and cloud-cover filters |
| Collection.CreateCollection | ee_preproc/landsat/landsat_collection.py:119-127 | the three filters, then the mask on every scene; its members are pinned down by `CreateCollectionAdmits` |
| Collection.MapSelect | ee_preproc/landsat/landsat_collection.py:158-162 | `map(select)` renames every scene in order |
| Collection.BaseCatalogMembers | ee_preproc/landsat/landsat_collection.py:184-186 | the Landsat 7 catalog is cut to scenes starting before 2021-10-30; the other catalogs are unfiltered |
| Collection.BaseCatalog | ee_preproc/landsat/landsat_collection.py:184-186 | the catalog `create_collection` receives: Landsat 7 cut at 2021-10-30, the others as they are; `BaseCatalogMembers` pins down its members |
| Collection.SensorCollectionSound | ee_preproc/landsat/landsat_collection.py:152-163 | every scene of one sensor's block comes from that sensor's catalog, passes its filters, and is masked and renamed |
| Collection.SensorCollectionComplete | ee_preproc/landsat/landsat_collection.py:152-163 | every catalog scene that passes the filters reaches the sensor's block, masked and renamed |
| Collection.SensorCollectionMembers | ee_preproc/landsat/landsat_collection.py:152-227 | both directions together: a sensor's block holds exactly the masked and renamed forms of its admitted catalog scenes |
| Collection.SensorCollection | ee_preproc/landsat/landsat_collection.py:152-163 | one sensor's block (`create_collection`, then `select`); its members are pinned down by `SensorCollectionSound`, `SensorCollectionComplete` and `SensorCollectionMembers` |
| Collection.MergeSensors | ee_preproc/landsat/landsat_collection.py:165-232 | the enabled sensors' blocks concatenated in order; `MergeSensorsMembers` and `MergeSensorsGrouped` state its members and their order |
| Collection.Assembled | ee_preproc/landsat/landsat_collection.py:150-232 | the reference value of `coll` after the five blocks; `AssembledStep` gives one block, `AssembledNoneIff` the `None` case, and `LandsatCollection` is proved equal to it |
| Collection.EnabledAmong | ee_preproc/landsat/landsat_collection.py:152-232 | the enabled sensors are exactly those whose `l9`...`l4` flag is set |
| Collection.AssembledStep | ee_preproc/landsat/landsat_collection.py:165-178 | one block: a disabled sensor leaves `coll` alone; an enabled one starts `coll` or merges its scenes after the earlier ones |
| Collection.LandsatCollection | ee_preproc/landsat/landsat_collection.py:150-233 | the method's five conditional rebinds of `coll` yield the reference merge over the order L9, L8, L7, L5, L4 |
| Collection.AssembledNoneIff | ee_preproc/landsat/landsat_collection.py:150-235 | `coll` is still `None` after the five blocks exactly when no sensor flag is set |
| Collection.MergeSensorsMembers | ee_preproc/landsat/landsat_collection.py:165-233 | merged scenes are exactly the selected scenes of the listed enabled sensors |
| Collection.LandsatCollectionMembers | ee_preproc/landsat/landsat_collection.py:150-233 | a scene is in the merged collection exactly when it is the masked, renamed form of an admitted scene of an enabled sensor |
| Collection.LandsatCollectionGrouped | ee_preproc/landsat/landsat_collection.py:150-233 | the merged collection lists scenes sensor by sensor in the order L9, L8, L7, L5, L4, and holds only enabled sensors |
| Collection.MergeSensorsGrouped | ee_preproc/landsat/landsat_collection.py:165-232 | merging sensors listed in strictly increasing merge rank lists each sensor's scenes before the next sensor's, and only listed sensors occur |
| Collection.DefaultsEnableAll | ee_preproc/landsat/landsat_collection.py:140-144 | with the default flags `l9=l8=l7=l5=l4=True` every sensor of the merge order is enabled |
| Collection.DefaultsMergeAll | ee_preproc/landsat/landsat_collection.py:136-147 | called with its defaults (all flags set, `max_cc=75`), `landsat_collection` yields all five sensors' collections merged in the order L9, L8, L7, L5, L4 |
| Brdf.CorrectBand | ee_preproc/landsat/brdf_correction.py:36-45 | the corrected band times `pred` equals the input band times `pred0` |
| Brdf.PredDependsOnSum | ee_preproc/landsat/brdf_correction.py:41-42 | `pred` is `(f_vol + f_geo) * k + f_iso`, so it sees the coefficients only through `f_iso` and `f_vol + f_geo` |
| Brdf.Coefficients | ee_preproc/landsat/brdf_correction.py:15-32 | the six published `(f_iso, f_geo, f_vol)` triples; `DefinedAboveBound` states the margin they give every `pred` |
| Brdf.Pred | ee_preproc/landsat/brdf_correction.py:41-42 | `pred` and `pred0` for one band; `PredDependsOnSum` gives its closed form |
| Brdf.CorrectBandEqualKernels | ee_preproc/landsat/brdf_correction.py:41-44 | equal kernels give a factor of 1, so the band is unchanged |
| Brdf.CorrectBandIsotropic | ee_preproc/landsat/brdf_correction.py:41-44 | with no anisotropic weight `pred` and `pred0` both equal `f_iso`, and the band is unchanged |
| Brdf.DefinedAboveBound | ee_preproc/landsat/brdf_correction.py:15-42 | each published `f_iso` outweighs 1.6 times `f_vol + f_geo`, so every kernel from -1.6 up, negative kernels included, makes every band's `pred` positive |
| Brdf.UndefinedAtNirRoot | ee_preproc/landsat/brdf_correction.py:24-26 | at `-f_iso / (f_vol + f_geo)` of nir (about -1.658) that band's `pred` is 0, so the bound of `DefinedAboveBound` cannot drop much lower |
| Brdf.ApplyCorrectionRatio | ee_preproc/landsat/brdf_correction.py:14-33 | every one of the six bands is scaled by its own `pred0 / pred` |
| Brdf.ApplyCorrectionIsPerBand | ee_preproc/landsat/brdf_correction.py:14-33 | each corrected band depends only on its own input band and is `_correct_band` with that band's coefficients |
| Brdf.ApplyCorrectionEqualKernels | ee_preproc/landsat/brdf_correction.py:14-45 | equal kernels leave the whole pixel unchanged |
| Brdf.ApplyCorrection | ee_preproc/landsat/brdf_correction.py:14-33 | `_apply` on one pixel; `ApplyCorrectionRatio`, `ApplyCorrectionIsPerBand` and `ApplyCorrectionEqualKernels` state what each band becomes |
| Brdf.Kvol0IsKvolAtNadir | ee_preproc/landsat/brdf_correction.py:52-76 | the second expression `kvol0` is the first expression `kvol` with the view zenith set to 0 |
| Brdf.Kvol | ee_preproc/landsat/brdf_correction.py:52-63 | the first kernel expression, written as in the source; `Kvol0IsKvolAtNadir` relates it to `Kvol0` |
| Brdf.Kvol0 | ee_preproc/landsat/brdf_correction.py:65-76 | the second kernel expression, written as in the source; `Kvol0IsKvolAtNadir` and `Kvol0IgnoresAzimuth` pin it down |
| Brdf.Kvol0IgnoresAzimuth | ee_preproc/landsat/brdf_correction.py:65-76 | when sin 0 = 0 and cos 0 = 1, `kvol0` depends on the sun zenith only, not on either azimuth |
| Brdf.KvolPairAtNadir | ee_preproc/landsat/brdf_correction.py:48-78 | at view zenith 0 `_kvol` returns two equal kernels |
| Brdf.KvolPair | ee_preproc/landsat/brdf_correction.py:48-78 | the pair `_kvol` returns; `KvolPairAtNadir` gives its nadir case |
| Brdf.ScaledKernelsAtNadir | ee_preproc/landsat/brdf_correction.py:10-11 | at view zenith 0 the two pi-scaled kernels passed to `_apply` are equal |
| Brdf.ScaledKernels | ee_preproc/landsat/brdf_correction.py:11 | both kernels multiplied by pi; `ApplyBrdfUsesPiKvol` ties them to `Kvol` and `Kvol0`, and `ScaledKernelsAtNadir` gives their nadir case |
| Brdf.ApplyBrdfUsesPiKvol | ee_preproc/landsat/brdf_correction.py:10-11 | the correction `apply` makes equals `_apply` with pi times `kvol` and pi times `kvol0`, and pi times `kvol` keeps every band's `pred` non-zero |
| Brdf.ApplyBrdfAtNadir | ee_preproc/landsat/brdf_correction.py:5-11 | `apply` leaves a pixel seen from nadir unchanged |
| Brdf.ApplyBrdf | ee_preproc/landsat/brdf_correction.py:5-11 | `apply` on one pixel; `ApplyBrdfAtNadir` gives its nadir case and `ApplyBrdfUsesPiKvol` the kernels it passes on |
| SunAngles.Clamp | ee_preproc/landsat/sun_angles.py:53 | `clamp(-1, 1)` lands in the interval, is the identity inside it and gives the nearer bound outside it |
| SunAngles.QuadrantResolution | ee_preproc/landsat/sun_angles.py:61-66 | the two `where` conditions are disjoint; the sign cases give `pi - asin`, `asin + 2 pi` and `asin` |
| SunAngles.QuadrantAdjustRange | ee_preproc/landsat/sun_angles.py:61-66 | the adjusted south-west azimuth lies in (0, 2 pi], and each sign case falls in its own quadrant range |
| SunAngles.QuadrantAdjust | ee_preproc/landsat/sun_angles.py:61-66 | the two `where` stages; `QuadrantResolution` and `QuadrantAdjustRange` give its cases and range |
| SunAngles.WrapKeepsRange | ee_preproc/landsat/sun_angles.py:70 | the wrap leaves values in (0, 2 pi] unchanged, 2 pi included |
| SunAngles.WrapIdempotent | ee_preproc/landsat/sun_angles.py:70 | on (0, 4 pi] one wrap lands in (0, 2 pi] and a second wrap changes nothing |
| SunAngles.Wrap | ee_preproc/landsat/sun_angles.py:70 | the wrap above 2 pi; `WrapKeepsRange` and `WrapIdempotent` state what it does on (0, 4 pi] |
| SunAngles.SunAzimuthRange | ee_preproc/landsat/sun_angles.py:52-70 | the sun azimuth lies in (0, 2 pi] and differs from the adjusted angle plus pi by at most one turn |
| SunAngles.SunAzimuthTwoPi | ee_preproc/landsat/sun_angles.py:68-70 | the result is exactly 2 pi precisely when the adjusted south-west azimuth is pi |
| SunAngles.SunAzimuth | ee_preproc/landsat/sun_angles.py:52-70 | the sun azimuth from the raw sine and the cosine; `SunAzimuthRange` and `SunAzimuthTwoPi` state its range and its 2 pi case |
| ViewAngles.ZenithReference | ee_preproc/landsat/view_angles.py:31-34 | the zenith times the sum of the two distances is M times their difference |
| ViewAngles.ZenithBounds | ee_preproc/landsat/view_angles.py:31-34 | inside the swath (non-negative distances) the zenith lies in [-M, M] |
| ViewAngles.ZenithEdges | ee_preproc/landsat/view_angles.py:31-34 | on the left edge the zenith is +M, and on the right edge -M |
| ViewAngles.ZenithNadir | ee_preproc/landsat/view_angles.py:31-34 | equal distances to both edges give zenith 0 |
| ViewAngles.ZenithAntisymmetric | ee_preproc/landsat/view_angles.py:31-34 | swapping the two distances negates the zenith |
| ViewAngles.ZenithDeg | ee_preproc/landsat/view_angles.py:31-34 | the view zenith in degrees; `ZenithReference`, `ZenithBounds`, `ZenithEdges`, `ZenithNadir` and `ZenithAntisymmetric` pin it down |
| ViewAngles.Slope | ee_preproc/landsat/view_angles.py:18-20 | the slope times the longitude difference is the latitude difference |
| ViewAngles.SlopeZeroIff | ee_preproc/landsat/view_angles.py:18-21 | the slope is 0, so that `-1 / slope` is undefined, exactly when both centres have the same latitude |
| ViewAngles.PerpSlope | ee_preproc/landsat/view_angles.py:21 | the perpendicular slope times the slope is -1 |
| ViewAngles.ViewAzimuthRange | ee_preproc/landsat/view_angles.py:11-23 | the view azimuth lies in (0, pi) and is pi/2 minus the arctangent of the perpendicular of the centre line |
| ViewAngles.ViewAzimuth | ee_preproc/landsat/view_angles.py:11-23 | the view azimuth; `ViewAzimuthRange` gives its range and closed form |

## Left out

- The Earth Engine operations are modelled by what the code relies on, not by how the server computes them. These are `filterBounds` (footprints as sets of cells), `filterDate` (times in milliseconds), `merge` (concatenation in merge order), `map`, `updateMask` (per-pixel validity), `distance` and `centroid`.
- The solar-position computation (`sun_angles.py:5-49`) is not modelled: the per-pixel latitude and longitude from `pixelLonLat`, fractional year, hour angle and the two Fourier series. The sine and cosine of the south-west azimuth are parameters.
- Trigonometry and pi are uninterpreted. The kernel values are not computed numerically; only facts such as the range of asin and atan are assumed as predicates of the `Trig` record.
- `apply_scale_factors` (`landsat_collection.py:130-133`) is not modelled. Band values pass through unscaled.
- The stages after the merge are not modelled:
  - the int16 `multiply(10000)` map (`landsat_collection.py:235-241`);
  - the BRDF map and its debug print (243-245);
  - `apply_tc` and `add_indices` (248; `add_indices` is not part of this model);
  - the final `select(bands)` (251).
- `misc.util` is not part of this model. Its helpers (`PI`, `where`, `deg_to_rad`, `line_from_coords`, `replace_bands`, `determine_footprint`, `MAX_SATELLITE_ZENITH`) appear as their meaning or as parameters: `PI()` is the `pi` of the `Trig` record, and `where(cond, a, b)` is read as `a` where `cond` holds and `b` elsewhere, which is how `QuadrantAdjust` and `Wrap` use it. The conversion of the view zenith to radians is not modelled.
- `clip` to the footprint polygon is not modelled: neither the clip of both sun angles and their renaming (`sun_angles.py:72-75`) nor the clip of the view zenith (`view_angles.py:35`). Every value is given for every pixel.
- `ee_preproc/__init__.py` holds no logic and is not modelled.
- Brdf.CorrectBand: requires `pred != 0`. What the server returns for a zero divisor is not modelled; these cases are excluded instead. The same holds for the distance sum in `ViewAngles.ZenithDeg`, the longitude and latitude differences in `ViewAngles.ViewAzimuth`, and the zenith cosine sum in `Brdf.Kvol`.
- QaBits.BitwiseExtract: requires `to_bit + 1 >= from_bit`. A negative `leftShift` count is server behaviour and is not modelled.
- Collection.SensorCollection: requires every catalog scene to carry `QA_PIXEL` and its sensor's six SR bands. The catalogs guarantee this; a missing band, which is a server error, is not modelled.
- Collection.RenameBands: requires distinct target names. The source only ever passes the six distinct common names.
- ViewAngles.ViewAzimuth: is one value per scene, as in the source. The constant image it becomes is not modelled.
- The `distance(MAX_DISTANCE)` cap at 1000000 metres (`view_angles.py:4`) is not modelled. The distances are parameters.
- Floating-point rounding is not modelled; all quantities are reals or unbounded integers.
