/** Images as the core sees them: rectangular grids of cells. A colour image is a
    grid of three-channel 8-bit pixels; masks and difference maps are grids of
    numbers. */
module Images {

  /** An unsigned 8-bit value (numpy's `uint8`). */
  type Byte = x: int | 0 <= x < 256

  /** One pixel of a three-channel image, channels in storage order. */
  datatype Pixel = Pixel(c0: Byte, c1: Byte, c2: Byte)

  const Black := Pixel(0, 0, 0)

  /** A grid representation: `rows` by `cols` cells, row-major. */
  datatype Raster<T> = Raster(rows: nat, cols: nat, cells: seq<seq<T>>)

  predicate Rectangular<T>(r: Raster<T>) {
    |r.cells| == r.rows && forall i :: 0 <= i < r.rows ==> |r.cells[i]| == r.cols
  }

  /** A numpy array of shape (rows, cols[, channels]) is always rectangular. */
  type Grid<T> = r: Raster<T> | Rectangular(r) witness Raster(0, 0, [])

  type Image = Grid<Pixel>

  predicate SameShape<T, U>(a: Grid<T>, b: Grid<U>) {
    a.rows == b.rows && a.cols == b.cols
  }

  predicate InBounds<T>(g: Grid<T>, i: int, j: int) {
    0 <= i < g.rows && 0 <= j < g.cols
  }

  /** The grid obtained by applying `f` to every cell. */
  function MapCells<T, U>(g: Grid<T>, f: T -> U): (r: Grid<U>)
    ensures SameShape(r, g)
    ensures forall i, j :: InBounds(g, i, j) ==> r.cells[i][j] == f(g.cells[i][j])
  {
    Raster(g.rows, g.cols,
      seq(g.rows, i requires 0 <= i < g.rows => seq(g.cols, j requires 0 <= j < g.cols => f(g.cells[i][j]))))
  }

  /** `cv2.cvtColor` between RGB and BGR exchanges the first and last channel. */
  function SwapRedBlue(p: Pixel): Pixel {
    Pixel(p.c2, p.c1, p.c0)
  }

  function RgbToBgr(img: Image): Image {
    MapCells(img, SwapRedBlue)
  }

  function BgrToRgb(img: Image): Image {
    MapCells(img, SwapRedBlue)
  }

  /** Converting to BGR and back gives the original image. */
  lemma ColourRoundTrip(img: Image)
    ensures BgrToRgb(RgbToBgr(img)) == img
    ensures RgbToBgr(BgrToRgb(img)) == img
  {
    var a := BgrToRgb(RgbToBgr(img));
    assert forall i | 0 <= i < img.rows :: a.cells[i] == img.cells[i];
    var b := RgbToBgr(BgrToRgb(img));
    assert forall i | 0 <= i < img.rows :: b.cells[i] == img.cells[i];
  }

  /** The current contents of a two-dimensional array, as a grid value. */
  function Snapshot<T>(a: array2<T>): (g: Grid<T>)
    reads a
    ensures g.rows == a.Length0 && g.cols == a.Length1
    ensures forall i, j :: 0 <= i < a.Length0 && 0 <= j < a.Length1 ==> g.cells[i][j] == a[i, j]
  {
    Raster(a.Length0, a.Length1,
      seq(a.Length0, i requires 0 <= i < a.Length0 reads a =>
        seq(a.Length1, j requires 0 <= j < a.Length1 reads a => a[i, j])))
  }
}
