/**
 One conversion (`GeolandFileConverter.convert_to_geotiff`, gio-gl-converter.py,
 lines 25-67) as a pure function: from the attributes and the array read out of
 the input file to the values handed to the raster writer.
 */
module Converter {
  import opened Int16
  import opened Classify
  import opened Grid
  import opened Decode
  import opened GeoTransform
  import opened Paths

  /** The tolerance used when the caller gives none. */
  const DefaultTolerance: real := 0.1

  /** The coordinate reference system the output is tagged with. */
  const Wgs84: string := "WGS84"

  /** What the converter reads from the input file: the global attributes PRODUCT,
      NL, NC, FIRST_LAT and FIRST_LON, the dataset's MISSING_VALUE and
      SCALING_FACTOR, and the dataset's samples. */
  datatype SourceGrid = SourceGrid(
    product: string,
    lines: int,
    columns: int,
    firstLat: int,
    firstLon: int,
    missingValue: int,
    scalingFactor: real,
    data: seq<seq<int>>)

  datatype SampleType = Int16Samples

  /** Everything the converter hands to the raster writer for one output file. */
  datatype OutputRaster = OutputRaster(
    path: string,
    width: int,
    height: int,
    bandCount: nat,
    sampleType: SampleType,
    band: seq<seq<int>>,
    geoTransform: Affine,
    projection: string,
    noData: int)

  function ScalingOf(src: SourceGrid, tolerance: real): Scaling {
    Scaling(src.missingValue, src.scalingFactor, tolerance)
  }

  /** An input the converter handles under the chosen arithmetic of the sentinel
      test: an int16 sentinel, a non-zero scaling factor and int16 samples whose
      valid quotients fit int16. */
  predicate Convertible(src: SourceGrid, tolerance: real, a: Arithmetic) {
    && WellFormed(ScalingOf(src, tolerance))
    && forall i, j :: 0 <= i < |src.data| && 0 <= j < |src.data[i]| ==>
         Decodable(src.data[i][j], ScalingOf(src, tolerance), a)
  }

  /** The conversion: an NC x NL single-band int16 raster holding the decoded samples,
      georeferenced so that pixel (0, 0) is centred on (FIRST_LON, FIRST_LAT) with
      0.05-degree north-up pixels, tagged WGS84, with MISSING_VALUE as its no-data
      value, written to the input's basename plus ".tif" directly inside the output
      directory. `Int16Wrapped` is the sentinel test as the code computes it,
      `Exact` the corrected one. */
  function Convert(src: SourceGrid, filePath: string, outputDir: string, tolerance: real, a: Arithmetic)
    : (out: OutputRaster)
    requires Convertible(src, tolerance, a)
    ensures out.width == src.columns && out.height == src.lines
    ensures out.bandCount == 1 && out.sampleType == Int16Samples
    ensures out.noData == src.missingValue
    ensures out.projection == Wgs84
    ensures SameShape(out.band, src.data)
    ensures forall i, j :: 0 <= i < |src.data| && 0 <= j < |src.data[i]| ==> InRange(out.band[i][j])
    ensures forall i, j | 0 <= i < |src.data| && 0 <= j < |src.data[i]| ::
              Missing(a, src.data[i][j], src.missingValue, tolerance) ==> out.band[i][j] == out.noData
    ensures forall i, j | 0 <= i < |src.data| && 0 <= j < |src.data[i]| ::
              Valid(a, src.data[i][j], src.missingValue, tolerance)
              ==> TruncatesTo(src.data[i][j] as real / src.scalingFactor, out.band[i][j])
    ensures NorthUp(out.geoTransform)
    ensures out.geoTransform.pixelWidth == PixelSize && out.geoTransform.pixelHeight == -PixelSize
    ensures Apply(out.geoTransform, 0.5, 0.5) == (src.firstLon as real, src.firstLat as real)
    ensures Head(out.path) == DirPrefix(outputDir)
    ensures Basename(out.path) == OutputName(filePath)
  {
    OutputRaster(
      OutputPath(outputDir, filePath),
      src.columns,
      src.lines,
      1,
      Int16Samples,
      DecodeGrid(src.data, ScalingOf(src, tolerance), a),
      FromFirstPixelCentre(src.firstLat, src.firstLon),
      Wgs84,
      src.missingValue)
  }

  /** Reading the band back, a cell equals the no-data value exactly when its raw
      sample was missing or was a valid sample whose quotient truncates to the sentinel. */
  lemma NoDataReadBack(src: SourceGrid, filePath: string, outputDir: string, tolerance: real, a: Arithmetic,
                       i: nat, j: nat)
    requires Convertible(src, tolerance, a)
    requires i < |src.data| && j < |src.data[i]|
    ensures Convert(src, filePath, outputDir, tolerance, a).band[i][j] == src.missingValue
        <==> (Missing(a, src.data[i][j], src.missingValue, tolerance)
              || TruncatesTo(src.data[i][j] as real / src.scalingFactor, src.missingValue))
  {
    var v := src.data[i][j];
    var q := v as real / src.scalingFactor;
    var b := Convert(src, filePath, outputDir, tolerance, a).band[i][j];
    assert Decodable(v, ScalingOf(src, tolerance), a);
    MasksComplementary(a, v, src.missingValue, tolerance);
    if !Missing(a, v, src.missingValue, tolerance) {
      assert TruncatesTo(q, b);
      if TruncatesTo(q, src.missingValue) {
        TruncatesToUnique(q, src.missingValue, b);
      }
    }
  }

  /** The samples taken as missing at a tolerance below one: the sentinel itself,
      and under the code's int16 arithmetic also the samples 32768 away from it. */
  predicate MissingBelowOne(a: Arithmetic, v: int, missing: int) {
    v == missing || (a == Int16Wrapped && AbsInt(v - missing) == Modulus / 2)
  }

  /** At the default tolerance a cell is no-data because its raw sample equals the
      sentinel, or under the code's arithmetic lies 32768 away from it; every other
      sample is rescaled. */
  lemma DefaultToleranceDecoding(src: SourceGrid, filePath: string, outputDir: string, a: Arithmetic,
                                 i: nat, j: nat)
    requires Convertible(src, DefaultTolerance, a)
    requires i < |src.data| && j < |src.data[i]|
    ensures MissingBelowOne(a, src.data[i][j], src.missingValue)
        ==> Convert(src, filePath, outputDir, DefaultTolerance, a).band[i][j] == src.missingValue
    ensures !MissingBelowOne(a, src.data[i][j], src.missingValue)
        ==> TruncatesTo(src.data[i][j] as real / src.scalingFactor,
                        Convert(src, filePath, outputDir, DefaultTolerance, a).band[i][j])
  {
    var v := src.data[i][j];
    assert Decodable(v, ScalingOf(src, DefaultTolerance), a);
    MasksComplementary(a, v, src.missingValue, DefaultTolerance);
    match a
    case Exact => MissingIffSentinel(v, src.missingValue, DefaultTolerance);
    case Int16Wrapped => AsWrittenMissingBelowOne(v, src.missingValue, DefaultTolerance);
  }

  /** With an int16 sentinel, int16 samples and a scaling factor of at least one,
      every input can be converted under either arithmetic. */
  lemma ConvertibleForLargeFactor(src: SourceGrid, tolerance: real, a: Arithmetic)
    requires InRange(src.missingValue)
    requires src.scalingFactor >= 1.0
    requires forall i, j :: 0 <= i < |src.data| && 0 <= j < |src.data[i]| ==> InRange(src.data[i][j])
    ensures Convertible(src, tolerance, a)
  {
    forall i, j | 0 <= i < |src.data| && 0 <= j < |src.data[i]|
      ensures Decodable(src.data[i][j], ScalingOf(src, tolerance), a)
    {
      QuotientFitsForLargeFactor(src.data[i][j], src.scalingFactor);
    }
  }

  /** A 2 x 2 dataset with sentinel -9999 and scaling factor 100. */
  const SmallGrid: seq<seq<int>> := [[1000, -9999], [500, 2000]]
  const SmallScaling: Scaling := Scaling(-9999, 100.0, DefaultTolerance)

  /** Its decoded band under the exact classification. */
  lemma SmallBandExact()
    ensures forall i, j | 0 <= i < 2 && 0 <= j < 2 :: Decodable(SmallGrid[i][j], SmallScaling, Exact)
    ensures DecodeGrid(SmallGrid, SmallScaling, Exact) == [[10, -9999], [5, 20]]
  {
    var g, p := SmallGrid, SmallScaling;
    forall i, j | 0 <= i < 2 && 0 <= j < 2
      ensures Decodable(g[i][j], p, Exact)
    {
      QuotientFitsForLargeFactor(g[i][j], 100.0);
    }
    ScaledInteger(1000, 10);
    ScaledInteger(500, 5);
    ScaledInteger(2000, 20);
    var d00, d01, d10, d11 := DecodeSample(1000, p), DecodeSample(-9999, p), DecodeSample(500, p), DecodeSample(2000, p);
    assert d00 == 10 && d01 == -9999 && d10 == 5 && d11 == 20;
    var e := DecodeGrid(g, p, Exact);
    assert e[0][0] == d00 && e[0][1] == d01;
    assert e[1][0] == d10 && e[1][1] == d11;
    assert e[0] == [10, -9999] && e[1] == [5, 20];
  }

  /** The same band under either arithmetic, since no sample lies 32768 or more
      away from the sentinel. */
  lemma SmallScenarioBand(a: Arithmetic)
    ensures forall i, j | 0 <= i < 2 && 0 <= j < 2 :: Decodable(SmallGrid[i][j], SmallScaling, a)
    ensures DecodeGrid(SmallGrid, SmallScaling, a) == [[10, -9999], [5, 20]]
  {
    SmallBandExact();
    forall i, j | 0 <= i < |SmallGrid| && 0 <= j < |SmallGrid[i]|
      ensures AbsInt(SmallGrid[i][j] - SmallScaling.missingValue) <= MaxInt16
    {
    }
    DecodeGridAgreesWithinRange(SmallGrid, SmallScaling);
  }

  /** A raw sample that is a whole multiple of 100 decodes to that multiple. */
  lemma ScaledInteger(v: int, n: int)
    requires v == 100 * n
    ensures TruncToZero(v as real / 100.0) == n
  {
    assert v as real / 100.0 == n as real;
    TruncOfInteger(n);
  }

  /** The 2 x 2 dataset of `SmallScenarioBand`, placed at (10, 20). */
  const SmallSource: SourceGrid := SourceGrid("DSSF", 2, 2, 10, 20, -9999, 100.0, SmallGrid)

  /** The whole conversion of that dataset. */
  lemma SmallScenario(a: Arithmetic)
    ensures Convertible(SmallSource, DefaultTolerance, a)
    ensures var out := Convert(SmallSource, "/in/a.h5", "out", DefaultTolerance, a);
            && out.band == [[10, -9999], [5, 20]]
            && Coefficients(out.geoTransform) == [19.975, 0.05, 0.0, 10.025, 0.0, -0.05]
            && out.noData == -9999
            && out.width == 2 && out.height == 2
  {
    SmallScenarioBand(a);
    FirstPixelCoefficients(10, 20);
  }

  /** A 1 x 1 dataset whose one sample lies 32768 above the sentinel -9999. */
  const WrapSource: SourceGrid := SourceGrid("DSSF", 1, 1, 10, 20, -9999, 100.0, [[22769]])

  /** The wrap end to end: the code writes that sample as no-data, where the
      corrected conversion writes 227. */
  lemma WrappedScenario()
    ensures Convertible(WrapSource, DefaultTolerance, Int16Wrapped)
    ensures Convertible(WrapSource, DefaultTolerance, Exact)
    ensures Convert(WrapSource, "/in/a.h5", "out", DefaultTolerance, Int16Wrapped).band == [[-9999]]
    ensures Convert(WrapSource, "/in/a.h5", "out", DefaultTolerance, Exact).band == [[227]]
  {
    WrappedSampleBecomesNoData();
    assert ScalingOf(WrapSource, DefaultTolerance) == Scaling(-9999, 100.0, 0.1);
  }
}
