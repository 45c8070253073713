/**
 The affine geotransform attached to the output raster (gio-gl-converter.py,
 lines 23 and 58-61). FIRST_LAT/FIRST_LON name the CENTRE of pixel (0, 0); GDAL
 wants the upper-left CORNER of that pixel, half a pixel west and north of it.
 */
module GeoTransform {

  /** Side of a pixel in degrees: one twentieth of a degree. */
  const PixelSize: real := 0.05

  /** GDAL's six coefficients, in GDAL's order. */
  datatype Affine = Affine(
    originX: real, pixelWidth: real, rowRotation: real,
    originY: real, colRotation: real, pixelHeight: real)

  /** The list handed to SetGeoTransform. */
  function Coefficients(a: Affine): (r: seq<real>)
    ensures |r| == 6
  {
    [a.originX, a.pixelWidth, a.rowRotation, a.originY, a.colRotation, a.pixelHeight]
  }

  /** GDAL's meaning of a geotransform: the (longitude, latitude) of the point at
      fractional column `col` and line `row` of the raster. */
  function Apply(a: Affine, col: real, row: real): (real, real)
  {
    (a.originX + col * a.pixelWidth + row * a.rowRotation,
     a.originY + col * a.colRotation + row * a.pixelHeight)
  }

  /** No rotation, columns run east and lines run south. */
  predicate NorthUp(a: Affine) {
    a.rowRotation == 0.0 && a.colRotation == 0.0 && a.pixelWidth > 0.0 && a.pixelHeight < 0.0
  }

  /** The transform built from the centre of the first pixel: a north-up grid of
      square pixels of side `PixelSize` whose pixel (0, 0) is centred on
      (firstLon, firstLat). */
  function FromFirstPixelCentre(firstLat: int, firstLon: int): (a: Affine)
    ensures NorthUp(a)
    ensures a.pixelWidth == PixelSize && a.pixelHeight == -PixelSize
    ensures Apply(a, 0.5, 0.5) == (firstLon as real, firstLat as real)
  {
    var ullon := firstLon as real - PixelSize / 2.0;
    var ullat := firstLat as real + PixelSize / 2.0;
    Affine(ullon, PixelSize, 0.0, ullat, 0.0, -PixelSize)
  }

  /** The six coefficients written out with the pixel size of 0.05 degrees. */
  lemma FirstPixelCoefficients(firstLat: int, firstLon: int)
    ensures Coefficients(FromFirstPixelCentre(firstLat, firstLon))
         == [firstLon as real - 0.025, 0.05, 0.0, firstLat as real + 0.025, 0.0, -0.05]
  {
  }

  /** The centre of pixel (col, row) lies `col` pixels east and `row` pixels south of
      the first pixel's centre. */
  lemma PixelCentre(firstLat: int, firstLon: int, col: int, row: int)
    ensures Apply(FromFirstPixelCentre(firstLat, firstLon), col as real + 0.5, row as real + 0.5)
         == (firstLon as real + col as real * PixelSize, firstLat as real - row as real * PixelSize)
  {
    var a := FromFirstPixelCentre(firstLat, firstLon);
    assert (col as real + 0.5) * PixelSize == col as real * PixelSize + 0.5 * PixelSize;
    assert (row as real + 0.5) * -PixelSize == -(row as real * PixelSize) - 0.5 * PixelSize;
    ZeroRotation(a, col as real + 0.5, row as real + 0.5);
    assert a.originX + (col as real + 0.5) * a.pixelWidth == firstLon as real + col as real * PixelSize;
    assert a.originY + (row as real + 0.5) * a.pixelHeight == firstLat as real - row as real * PixelSize;
    assert Apply(a, col as real + 0.5, row as real + 0.5).0 == firstLon as real + col as real * PixelSize;
    assert Apply(a, col as real + 0.5, row as real + 0.5).1 == firstLat as real - row as real * PixelSize;
  }

  /** The inverse mapping: the fractional (column, line) of a geographic position. */
  function Locate(a: Affine, lon: real, lat: real): (cr: (real, real))
    requires NorthUp(a)
    ensures Apply(a, cr.0, cr.1) == (lon, lat)
  {
    var col := (lon - a.originX) / a.pixelWidth;
    var row := (lat - a.originY) / a.pixelHeight;
    DivideThenMultiply(lon - a.originX, a.pixelWidth);
    DivideThenMultiply(lat - a.originY, a.pixelHeight);
    ZeroRotation(a, col, row);
    assert col * a.pixelWidth == lon - a.originX;
    assert Apply(a, col, row).0 == lon;
    assert Apply(a, col, row).1 == lat;
    (col, row)
  }

  lemma ZeroRotation(a: Affine, col: real, row: real)
    requires NorthUp(a)
    ensures Apply(a, col, row).0 == a.originX + col * a.pixelWidth
    ensures Apply(a, col, row).1 == a.originY + row * a.pixelHeight
  {
    assert row * a.rowRotation == row * 0.0 == 0.0;
    assert col * a.colRotation == col * 0.0 == 0.0;
  }

  lemma DivideThenMultiply(x: real, d: real)
    requires d != 0.0
    ensures (x / d) * d == x
  {
  }

  /** Locating the image of a pixel position gives that position back. */
  lemma LocateApply(a: Affine, col: real, row: real)
    requires NorthUp(a)
    ensures Locate(a, Apply(a, col, row).0, Apply(a, col, row).1) == (col, row)
  {
    ZeroRotation(a, col, row);
    var (lon, lat) := Apply(a, col, row);
    assert lon - a.originX == col * a.pixelWidth;
    assert lat - a.originY == row * a.pixelHeight;
    MultiplyThenDivide(col, a.pixelWidth);
    MultiplyThenDivide(row, a.pixelHeight);
    assert Locate(a, lon, lat).0 == col;
    assert Locate(a, lon, lat).1 == row;
  }

  lemma MultiplyThenDivide(x: real, d: real)
    requires d != 0.0
    ensures (x * d) / d == x
  {
  }
}
