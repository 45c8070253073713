# Geoland-2 HDF5 to GeoTIFF converter — Dafny model

The converter (`gio-gl-converter.py`, `GeolandFileConverter.convert_to_geotiff`) reads
one DSSF dataset from an HDF5 file and writes it as a single-band int16 GeoTIFF. This
project models that conversion as pure functions and proves what it computes:

- **Sample decoding** (lines 47-53): each raw int16 sample within `tolerance` of
  `MISSING_VALUE` becomes `MISSING_VALUE`. Every other sample is divided by
  `SCALING_FACTOR` and stored back into the int16 array, which truncates toward zero.
  `Decode.DecodeFlat` follows the numpy code step by step on the row-major sample order.
  Both boolean masks are built from the raw data. The valid samples are gathered, divided
  and scattered back (`BoolIndex.Select`/`Scatter`), then the sentinel is broadcast into
  the missing positions (`BoolIndex.Fill`). `Decode.DecodeGrid` lifts it to the 2-D
  array through `Grid.Flatten`/`Grid.Reshape`. Both take the arithmetic of the
  "missing" test as a parameter (`Classify.Arithmetic`). With `Int16Wrapped` the
  difference to the sentinel is taken in int16, as the code does, and the result is
  proved equal, position by position, to the per-sample decoder
  `Decode.DecodeSampleAsWritten`. With `Exact` the distance is the true one, and the
  result equals `Decode.DecodeSample` at every position. The two agree whenever no
  sample lies 32768 or more away from the sentinel (see Findings).
- **int16 arithmetic** (`Int16`): the range, two's-complement wrap, numpy's `abs` on int16
  (which leaves -32768 negative) and truncation toward zero.
- **Classification** (`Classify`): the test as the code computes it in int16
  (`IsMissingAsWritten`) and the exact test (`IsMissing`), with the difference between
  them stated and proved (see Findings).
- **Geotransform** (lines 23, 58-61): pixel size 0.05 degrees. The upper-left-corner
  transform is built from the centre of pixel (0, 0). Its GDAL meaning (`Apply`) and its
  inverse (`Locate`) are given.
- **Output naming** (lines 36-37): POSIX `basename`, the ".tif" suffix and `os.path.join`.
- **The conversion** (`Converter.Convert`): the values handed to the raster writer. These
  are the path, the NC x NL size, one int16 band, the decoded samples, the geotransform,
  WGS84 and the no-data value. It too takes the arithmetic of the "missing" test:
  `Int16Wrapped` is the code as written, `Exact` the corrected conversion.

The numeric model uses mathematical reals for the float attribute and the division. It
uses unbounded integers with explicit int16 range predicates and explicit wrap.

## Model

| member | source | states |
|---|---|---|
| Int16.Wrap | gio-gl-converter.py:50 | int16 arithmetic yields the unique in-range value congruent to the exact result modulo 2^16 |
| Int16.Abs16 | gio-gl-converter.py:50-51 | numpy `abs` on int16 is the true absolute value, except that -32768 stays -32768 |
| Int16.TruncToZero | gio-gl-converter.py:52 | a float stored into the int16 array keeps its sign and loses less than one toward zero |
| Int16.TruncatesToUnique | gio-gl-converter.py:52 | truncation toward zero has exactly one result, so the stored value is determined by the quotient |
| Int16.TruncOfInteger | gio-gl-converter.py:52 | a quotient that is a whole number is stored unchanged |
| Classify.MasksComplementary | gio-gl-converter.py:50-51 | under either arithmetic, a sample is valid if and only if it is not missing |
| Classify.MissingIffSentinel | gio-gl-converter.py:50-51 | with a tolerance in [0, 1), such as the default 0.1, "missing" means exactly "equal to MISSING_VALUE" |
| Classify.DistanceAsWritten | gio-gl-converter.py:50-51 | the distance the code compares is the true distance up to 32767, -32768 at distance 32768, and 65536 minus the true distance beyond |
| Classify.AsWrittenAgreesWithinRange | gio-gl-converter.py:50-52 | when the difference fits int16 the code's two masks equal the exact ones and are complementary |
| Classify.AsWrittenMissingBelowOne | gio-gl-converter.py:50-51 | at a tolerance in [0, 1) the code treats as missing the sentinel itself and the samples exactly 32768 away from it |
| Classify.ZeroMissingAsWrittenForMinSentinel | gio-gl-converter.py:50-51 | with MISSING_VALUE -32768 and tolerance 0.1 the code classifies a raw 0 as missing, which the exact test does not |
| BoolIndex.Rank | gio-gl-converter.py:52 | the destination index of a selected element lies inside the gathered array |
| BoolIndex.SelectAt | gio-gl-converter.py:52 | `data[mask]` lists the selected elements in order: the element at a selected position k is entry Rank(k) |
| BoolIndex.ScatterAt | gio-gl-converter.py:52 | `data[mask] = vals` gives selected position k entry Rank(k) of vals and leaves every unselected position unchanged |
| BoolIndex.Fill | gio-gl-converter.py:53 | `data[mask] = value` sets exactly the selected positions to the value and changes nothing else |
| BoolIndex.SelectAfterScatter | gio-gl-converter.py:52 | after a masked assignment, reading the same mask returns the values written |
| BoolIndex.ScatterOwnSelection | gio-gl-converter.py:52 | assigning a mask its own current values leaves the array unchanged |
| Grid.FlattenAt | gio-gl-converter.py:50-53 | a 2-D mask indexes in row-major order: cell (i, j) is flat position Offset(i) + j |
| Grid.ReshapeAt | gio-gl-converter.py:50-53 | cutting the flat result back into rows puts flat position Offset(i) + j at cell (i, j) |
| Grid.ReshapeFlatten | gio-gl-converter.py:50-53 | flattening then reshaping gives the grid back |
| Grid.FlattenMember | gio-gl-converter.py:50-53 | every flattened sample comes from some row of the grid |
| Decode.DecodeSample | gio-gl-converter.py:50-53 | a missing sample decodes to MISSING_VALUE; a valid sample decodes to its quotient truncated toward zero; the result is int16 |
| Decode.DecodedIsSentinel | gio-gl-converter.py:52-53 | a sample decodes to the sentinel if and only if it was missing or its quotient truncates to the sentinel; such a valid sample is not re-touched |
| Decode.QuotientFitsForLargeFactor | gio-gl-converter.py:52 | with a scaling factor of at least 1 every int16 sample's quotient fits int16 |
| Decode.DividedAt | gio-gl-converter.py:52 | after the division step a valid position holds its truncated quotient and a missing position still holds its raw sample |
| Decode.DecodeFlat | gio-gl-converter.py:50-53 | the two-mask gather/divide/scatter/fill sequence puts the sentinel at every missing position and the truncated quotient at every valid one, each position depending only on the raw sample there; under the code's arithmetic this is the per-sample decoder `DecodeSampleAsWritten` at every position, under exact arithmetic `DecodeSample` |
| Decode.DecodeGrid | gio-gl-converter.py:47-53 | the decoded array has the raw array's shape; a missing cell holds the sentinel, a valid cell its truncated quotient, each cell depending only on the raw cell at the same position; under the code's arithmetic this is `DecodeSampleAsWritten` cell by cell, under exact arithmetic `DecodeSample` |
| Decode.DecodeGridAgreesWithinRange | gio-gl-converter.py:50-53 | when every sample lies within 32767 of the sentinel, the code's pipeline and the exact one produce the same array |
| Decode.WrappedSampleBecomesNoData | gio-gl-converter.py:50-53 | with MISSING_VALUE -9999, SCALING_FACTOR 100 and tolerance 0.1, the code decodes [[22769]] to [[-9999]], where the exact pipeline gives [[227]] |
| Decode.DecodeSampleAsWritten | gio-gl-converter.py:50-53 | the code's decoder: samples missing under the int16-wrapped test become the sentinel, the rest their truncated quotient |
| Decode.AsWrittenDecodeAgrees | gio-gl-converter.py:50-53 | for samples within 32767 of the sentinel the code's decoder and the exact decoder agree |
| Decode.ZeroBecomesNoDataAsWritten | gio-gl-converter.py:50-53 | with MISSING_VALUE -32768 and SCALING_FACTOR 100 the code writes a raw 0 as no-data, where the exact decoder writes 0 |
| GeoTransform.FromFirstPixelCentre | gio-gl-converter.py:58-61 | the transform is north-up with square pixels of side 0.05, and maps pixel centre (0.5, 0.5) to (FIRST_LON, FIRST_LAT) |
| GeoTransform.FirstPixelCoefficients | gio-gl-converter.py:58-61 | the coefficients are [FIRST_LON - 0.025, 0.05, 0, FIRST_LAT + 0.025, 0, -0.05] |
| GeoTransform.PixelCentre | gio-gl-converter.py:58-61 | the centre of pixel (col, row) is col * 0.05 degrees east and row * 0.05 degrees south of the first pixel's centre |
| GeoTransform.Locate | gio-gl-converter.py:60-61 | the inverse of the transform: applying the transform to the located position gives the geographic point back |
| GeoTransform.LocateApply | gio-gl-converter.py:60-61 | locating the image of a pixel position returns that pixel position |
| Paths.ComponentStart | gio-gl-converter.py:36 | the final component starts just after the last '/' and contains no '/' |
| Paths.Basename | gio-gl-converter.py:36 | `basename` is the separator-free suffix that is either the whole path or preceded by '/' |
| Paths.FinalComponentUnique | gio-gl-converter.py:36 | a path has only one such final component |
| Paths.HeadBasename | gio-gl-converter.py:36 | the directory part followed by the basename is the original path |
| Paths.SplitAfterSeparator | gio-gl-converter.py:36-37 | a separator-free name after a prefix ending in '/' is recovered as the basename, and the prefix as the head |
| Paths.Join | gio-gl-converter.py:37 | `os.path.join` returns an absolute name as is and puts a relative name after the directory's prefix; a non-empty separator-free name lands directly inside the directory: the joined path's head is the directory prefix and its basename is the name |
| Paths.DirPrefix | gio-gl-converter.py:37 | the directory as it appears before a joined name: it ends in '/' unless it is empty, and it is the directory itself exactly when the directory is empty or already ends in '/', otherwise the directory with one '/' added |
| Paths.OutputName | gio-gl-converter.py:36 | the output name has no '/', ends in ".tif", and what precedes ".tif" is the input's final component, extension included |
| Paths.OutputPath | gio-gl-converter.py:36-37 | the output path is the output directory, then a '/' unless the directory is empty or already ends in one, then the output name; the file therefore lies directly inside that directory under the output name |
| Paths.OutputPathExample | gio-gl-converter.py:36-37 | "/data/in/a.h5" converted into "out" is written to "out/a.h5.tif" |
| Converter.Convert | gio-gl-converter.py:35-67 | the raster has width NC, height NL and one int16 band; cells missing under the chosen arithmetic hold the no-data value, which is MISSING_VALUE; valid cells hold truncated quotients; the geotransform is north-up with pixel width 0.05 and pixel height -0.05, and pixel (0, 0) is centred on the first coordinates; the projection is WGS84; the path is the output name directly inside the output directory |
| Converter.NoDataReadBack | gio-gl-converter.py:50-65 | reading the band back, a cell equals the no-data value if and only if its raw sample was missing under the chosen arithmetic or its quotient truncates to the sentinel |
| Converter.DefaultToleranceDecoding | gio-gl-converter.py:25-53 | at the default tolerance, a cell is no-data when its raw sample equals MISSING_VALUE or, under the code's int16 arithmetic, lies exactly 32768 away from it; every other sample is rescaled |
| Converter.ConvertibleForLargeFactor | gio-gl-converter.py:47-52 | int16 samples, an int16 sentinel and a scaling factor of at least 1 can always be converted, under either arithmetic |
| Converter.SmallBandExact | gio-gl-converter.py:50-53 | [[1000, -9999], [500, 2000]] with sentinel -9999 and factor 100 decodes exactly to [[10, -9999], [5, 20]] |
| Converter.SmallScenarioBand | gio-gl-converter.py:50-53 | the code's int16 arithmetic decodes that dataset to the same [[10, -9999], [5, 20]] |
| Converter.SmallScenario | gio-gl-converter.py:47-65 | that dataset with FIRST_LAT 10 and FIRST_LON 20 gives geotransform [19.975, 0.05, 0, 10.025, 0, -0.05] and no-data -9999 |
| Converter.WrappedScenario | gio-gl-converter.py:47-65 | a 1 x 1 dataset holding 22769 with MISSING_VALUE -9999 is converted by the code to a no-data cell, where the corrected conversion writes 227 |

## Left out

- Reading the HDF5 file (lines 38-48) is not modelled: the attributes and the array are inputs (`Converter.SourceGrid`). So the failures of a missing attribute, a missing dataset node or an unreadable file are not modelled.
- The `astype(int16)` cast of the on-disk array (line 47) is not modelled: samples are taken to be int16 already (`Decode.Decodable`).
- The `int()`/`float()` conversions of the attributes (lines 40-46) are not modelled: NL, NC, FIRST_LAT, FIRST_LON and MISSING_VALUE are integers, and SCALING_FACTOR is a real.
- The GDAL and OSR calls (lines 35, 54-67) are not modelled: only the values passed to them are recorded in `Converter.OutputRaster`. The WKT text of WGS84 is represented by its name, and flushing and closing the file are not modelled. Write failures are not modelled either.
- Converter.Convert: it does not relate the array's shape to NL x NC. The code writes the whole array at offset (0, 0) without checking it against the raster size, and what GDAL does on a mismatch is not part of this model.
- Decode.WellFormed: MISSING_VALUE is required to be an int16 value. Otherwise numpy's type promotion in the mask and the store on line 53 depend on the numpy version.
- Decode.WellFormed: SCALING_FACTOR is required to be non-zero. With zero, numpy produces infinities or NaN, and their cast to int16 is undefined.
- Decode.Decodable: every valid sample's truncated quotient is required to fit int16. numpy's unsafe cast of an out-of-range float to int16 is platform-dependent.
- Int16.TruncToZero: floating-point behaviour is not modelled. The model divides exact reals, and 0.05 is exactly 1/20. With IEEE-754 doubles, `v / scaling_factor` is correctly rounded, and the quotient can land on the other side of an integer than the exact quotient. The geotransform coefficients are also only approximately 0.05 and ±0.025.
- The line 52 division applies only to the valid samples, gathered by the mask, as the code does. It does not divide every sample first and then overwrite the missing ones. Either way the result is the same.
- Command-line parsing, logging, output directory creation and the loop over input files (lines 70-94) are not modelled. They are I/O plumbing around one conversion.

## Findings

| source | as written | input that shows it | evidently intended | confidence | as-written member | corrected member |
|---|---|---|---|---|---|---|
| gio-gl-converter.py:50-51 | `abs(data - missing_value) <= tolerance` is computed in the int16 dtype of `data`, so the difference wraps and `abs(-32768)` stays -32768 | MISSING_VALUE = -32768, raw sample 0, tolerance 0.1: the difference 32768 wraps to -32768, and -32768 <= 0.1 holds, so 0 is written as no-data. MISSING_VALUE = -9999, raw sample 22769: the difference 32768 wraps the same way, so 22769 becomes no-data instead of 227 | a sample is missing only when its true distance from MISSING_VALUE is within the tolerance, so 0 and 22769 are valid samples | medium, not executed (assumes numpy keeps the int16 dtype for an in-range Python int operand) | Decode.DecodeGrid and Converter.Convert with `Int16Wrapped`, per sample Decode.DecodeSampleAsWritten (shown by Decode.ZeroBecomesNoDataAsWritten, Decode.WrappedSampleBecomesNoData and Converter.WrappedScenario) | Decode.DecodeGrid and Converter.Convert with `Exact`, per sample Decode.DecodeSample (with Classify.MissingIffSentinel and Decode.DecodeGridAgreesWithinRange) |
