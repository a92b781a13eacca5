/** The compositing arithmetic of the upscaled swapper (`upscaled_inswapper.py`):
    the upscaler lookup, the masked merge of two crops, the difference map with
    its zeroed border, the presence and difference thresholds, the kernel sizes
    derived from the presence mask's extent, the normalisation of the masks and
    the final weighted blend. The OpenCV warps, erosions, dilations and blurs
    that sit between these steps are not part of this module. */
module Compositor {
  import opened Outcomes
  import opened Images
  import Settings

  function Min(a: int, b: int): int { if a <= b then a else b }

  function Max(a: int, b: int): int { if a >= b then a else b }

  // ---------------------------------------------------------------------------
  // get_upscaler

  /** An entry of the host's upscaler list. Only its name is read here;
      `scale` stands for the entry's other fields, returned untouched. */
  datatype Upscaler = Upscaler(name: string, scale: int)

  /** The first upscaler carrying the configured name, or None. */
  method GetUpscaler(upscalers: seq<Upscaler>, opts: Settings.Options) returns (r: Option<Upscaler>)
    ensures r.None? <==> forall k :: 0 <= k < |upscalers| ==> upscalers[k].name != Settings.UpscalerName(opts)
    ensures r.Some? ==>
      exists k :: 0 <= k < |upscalers| && r.value == upscalers[k] && r.value.name == Settings.UpscalerName(opts) &&
                  forall j :: 0 <= j < k ==> upscalers[j].name != Settings.UpscalerName(opts)
  {
    for k := 0 to |upscalers|
      invariant forall j :: 0 <= j < k ==> upscalers[j].name != Settings.UpscalerName(opts)
    {
      if upscalers[k].name == Settings.UpscalerName(opts) {
        return Some(upscalers[k]);
      }
    }
    return None;
  }

  // ---------------------------------------------------------------------------
  // merge_images_with_mask

  /** `astype(np.uint8)` on an integer mask keeps the low eight bits. */
  function ToByte(m: int): Byte {
    m % 256
  }

  /** `cv2.bitwise_and(p, p, mask=m)`: the pixel where the mask is set, black elsewhere. */
  function Masked(p: Pixel, m: Byte): Pixel {
    if m != 0 then p else Black
  }

  /** `cv2.add` on 8-bit channels saturates at 255. */
  function AddSat(a: Byte, b: Byte): Byte {
    if a + b <= 255 then a + b else 255
  }

  function AddPixels(p: Pixel, q: Pixel): Pixel {
    Pixel(AddSat(p.c0, q.c0), AddSat(p.c1, q.c1), AddSat(p.c2, q.c2))
  }

  /** One merged pixel: the first image kept where the inverted mask is set,
      the second where the mask is set, the two added with saturation. */
  function MergePixel(p1: Pixel, p2: Pixel, m: Byte): Pixel {
    AddPixels(Masked(p1, 255 - m), Masked(p2, m))
  }

  function MergeImagesWithMask(image1: Image, image2: Image, mask: Grid<int>): (r: Result<Image>)
    ensures r.Err? <==> !SameShape(image1, image2) || !SameShape(image1, mask)
    ensures r.Err? ==> r.error == ValueError
    ensures r.Ok? ==>
      && SameShape(r.value, image1)
      && forall i, j :: InBounds(image1, i, j) ==>
           r.value.cells[i][j] == MergePixel(image1.cells[i][j], image2.cells[i][j], ToByte(mask.cells[i][j]))
  {
    if !SameShape(image1, image2) || !SameShape(image1, mask) then Err(ValueError)
    else
      Ok(Raster(image1.rows, image1.cols,
        seq(image1.rows, i requires 0 <= i < image1.rows =>
          seq(image1.cols, j requires 0 <= j < image1.cols =>
            MergePixel(image1.cells[i][j], image2.cells[i][j], ToByte(mask.cells[i][j]))))))
  }

  /** A zero mask byte keeps the first image's pixel, 255 takes the second's,
      and any other value adds both with saturation. */
  lemma MergePixelCases(p1: Pixel, p2: Pixel, m: Byte)
    ensures m == 0 ==> MergePixel(p1, p2, m) == p1
    ensures m == 255 ==> MergePixel(p1, p2, m) == p2
    ensures 0 < m < 255 ==> MergePixel(p1, p2, m) == AddPixels(p1, p2)
    ensures 0 < m < 255 ==> MergePixel(p1, p2, m).c0 >= Max(p1.c0, p2.c0)
    ensures 0 < m < 255 ==> MergePixel(p1, p2, m).c1 >= Max(p1.c1, p2.c1)
    ensures 0 < m < 255 ==> MergePixel(p1, p2, m).c2 >= Max(p1.c2, p2.c2)
  {
  }

  /** With a mask of zeros and 255s, the merge picks, pixel by pixel, the first
      image where the mask is zero and the second where it is 255. */
  lemma MergeWithBinaryMask(image1: Image, image2: Image, mask: Grid<int>)
    requires SameShape(image1, image2) && SameShape(image1, mask)
    requires forall i, j :: InBounds(mask, i, j) ==> ToByte(mask.cells[i][j]) == 0 || ToByte(mask.cells[i][j]) == 255
    ensures var r := MergeImagesWithMask(image1, image2, mask);
      r.Ok? && forall i, j :: InBounds(image1, i, j) ==>
        r.value.cells[i][j] == (if ToByte(mask.cells[i][j]) == 0 then image1.cells[i][j] else image2.cells[i][j])
  {
    var r := MergeImagesWithMask(image1, image2, mask);
    forall i, j | InBounds(image1, i, j)
      ensures r.value.cells[i][j] == (if ToByte(mask.cells[i][j]) == 0 then image1.cells[i][j] else image2.cells[i][j])
    {
      MergePixelCases(image1.cells[i][j], image2.cells[i][j], ToByte(mask.cells[i][j]));
    }
  }

  /** Merging under an all-zero mask gives back the first image, under an
      all-255 mask the second. */
  lemma MergeWithUniformMask(image1: Image, image2: Image, mask: Grid<int>, fill: int)
    requires SameShape(image1, image2) && SameShape(image1, mask)
    requires fill == 0 || fill == 255
    requires forall i, j :: InBounds(mask, i, j) ==> mask.cells[i][j] == fill
    ensures MergeImagesWithMask(image1, image2, mask) == Ok(if fill == 0 then image1 else image2)
  {
    var r := MergeImagesWithMask(image1, image2, mask).value;
    var want := if fill == 0 then image1 else image2;
    MergeWithBinaryMask(image1, image2, mask);
    forall i | 0 <= i < image1.rows ensures r.cells[i] == want.cells[i] {
      assert forall j :: 0 <= j < image1.cols ==> r.cells[i][j] == want.cells[i][j];
    }
    assert r.cells == want.cells;
  }

  // ---------------------------------------------------------------------------
  // compute_diff

  function AbsDiff(a: Byte, b: Byte): Byte {
    if a >= b then a - b else b - a
  }

  /** The mean over the three channels of the absolute channel difference. */
  function MeanAbsDiff(p: Pixel, q: Pixel): real {
    (AbsDiff(p.c0, q.c0) + AbsDiff(p.c1, q.c1) + AbsDiff(p.c2, q.c2)) as real / 3.0
  }

  /** The two outermost rows and columns on each side of an h-by-w map. */
  predicate OnBorder(h: int, w: int, i: int, j: int) {
    i < 2 || i >= h - 2 || j < 2 || j >= w - 2
  }

  /** The difference map's value at one cell: zero on the border, the mean
      absolute difference inside. */
  function DiffAt(fake: Image, aimg: Image, i: int, j: int): real
    requires SameShape(fake, aimg) && InBounds(fake, i, j)
  {
    if OnBorder(fake.rows, fake.cols, i, j) then 0.0 else MeanAbsDiff(fake.cells[i][j], aimg.cells[i][j])
  }

  /** The difference map of a generated crop against the reference crop;
      crops of different shapes cannot be subtracted. */
  method ComputeDiff(fake: Image, aimg: Image) returns (r: Result<Grid<real>>)
    ensures r.Err? <==> !SameShape(fake, aimg)
    ensures r.Ok? ==>
      && SameShape(r.value, fake)
      && forall i, j :: InBounds(fake, i, j) ==> r.value.cells[i][j] == DiffAt(fake, aimg, i, j)
  {
    if !SameShape(fake, aimg) {
      return Err(ValueError);
    }
    var h: int, w: int := fake.rows, fake.cols;
    var d := new real[h, w];
    forall i, j | 0 <= i < h && 0 <= j < w {
      d[i, j] := MeanAbsDiff(fake.cells[i][j], aimg.cells[i][j]);
    }
    ZeroRows(d, 0, Min(2, h));
    ZeroRows(d, Max(h - 2, 0), h);
    ZeroCols(d, 0, Min(2, w));
    ZeroCols(d, Max(w - 2, 0), w);
    r := Ok(Snapshot(d));
  }

  /** Rows lo..hi-1 of the map set to zero in place, the rest unchanged. */
  method ZeroRows(d: array2<real>, lo: int, hi: int)
    requires 0 <= lo <= hi <= d.Length0
    modifies d
    ensures forall i, j :: 0 <= i < d.Length0 && 0 <= j < d.Length1 ==>
      d[i, j] == if lo <= i < hi then 0.0 else old(d[i, j])
  {
    forall i, j | lo <= i < hi && 0 <= j < d.Length1 {
      d[i, j] := 0.0;
    }
  }

  /** Columns lo..hi-1 of the map set to zero in place, the rest unchanged. */
  method ZeroCols(d: array2<real>, lo: int, hi: int)
    requires 0 <= lo <= hi <= d.Length1
    modifies d
    ensures forall i, j :: 0 <= i < d.Length0 && 0 <= j < d.Length1 ==>
      d[i, j] == if lo <= j < hi then 0.0 else old(d[i, j])
  {
    forall i, j | 0 <= i < d.Length0 && lo <= j < hi {
      d[i, j] := 0.0;
    }
  }

  /** A mean absolute difference lies in [0, 255] and is zero exactly when
      the two pixels are equal. */
  lemma MeanAbsDiffBounds(p: Pixel, q: Pixel)
    ensures 0.0 <= MeanAbsDiff(p, q) <= 255.0
    ensures MeanAbsDiff(p, q) == 0.0 <==> p == q
  {
  }

  /** Every cell of the difference map lies in [0, 255]; border cells are
      zero, and an interior cell is zero exactly when the crops agree there. */
  lemma DiffAtBounds(fake: Image, aimg: Image, i: int, j: int)
    requires SameShape(fake, aimg) && InBounds(fake, i, j)
    ensures 0.0 <= DiffAt(fake, aimg, i, j) <= 255.0
    ensures OnBorder(fake.rows, fake.cols, i, j) ==> DiffAt(fake, aimg, i, j) == 0.0
    ensures !OnBorder(fake.rows, fake.cols, i, j) ==>
      (DiffAt(fake, aimg, i, j) == 0.0 <==> fake.cells[i][j] == aimg.cells[i][j])
  {
    MeanAbsDiffBounds(fake.cells[i][j], aimg.cells[i][j]);
  }

  /** A map smaller than five cells across has no interior: it is all border. */
  lemma SmallMapIsAllBorder(h: int, w: int, i: int, j: int)
    requires 0 <= i < h && 0 <= j < w && (h <= 4 || w <= 4)
    ensures OnBorder(h, w, i, j)
  {
  }

  // ---------------------------------------------------------------------------
  // The presence and difference thresholds

  /** The presence mask's threshold at one cell. */
  function PresenceLevel(v: real): real {
    if v > 20.0 then 255.0 else v
  }

  /** Values above 20 of the warped presence mask set to 255 in place. */
  method ThresholdPresence(white: array2<real>)
    modifies white
    ensures forall i, j :: 0 <= i < white.Length0 && 0 <= j < white.Length1 ==>
      white[i, j] == PresenceLevel(old(white[i, j]))
  {
    forall i, j | 0 <= i < white.Length0 && 0 <= j < white.Length1 && white[i, j] > 20.0 {
      white[i, j] := 255.0;
    }
  }

  /** Values of at most 20 are kept, larger ones become 255; the threshold
      is idempotent and never lowers a value. */
  lemma PresenceLevelSpec(v: real)
    ensures v > 20.0 ==> PresenceLevel(v) == 255.0
    ensures v <= 20.0 ==> PresenceLevel(v) == v
    ensures PresenceLevel(PresenceLevel(v)) == PresenceLevel(v)
    ensures v <= 255.0 ==> v <= PresenceLevel(v) <= 255.0
  {
  }

  /** The difference mask after both passes: first every value below the
      threshold is set to 0, then every value at or above it to 255. */
  function DiffLevel(v: real, fthresh: real): real {
    var low := if v < fthresh then 0.0 else v;
    if low >= fthresh then 255.0 else low
  }

  /** The two masked assignments on the difference map, in place, with the
      configured threshold (default 10). */
  method ThresholdDiff(diff: array2<real>, opts: Settings.Options)
    modifies diff
    ensures forall i, j :: 0 <= i < diff.Length0 && 0 <= j < diff.Length1 ==>
      diff[i, j] == DiffLevel(old(diff[i, j]), Settings.DiffThreshold(opts))
  {
    var fthresh := Settings.DiffThreshold(opts);
    forall i, j | 0 <= i < diff.Length0 && 0 <= j < diff.Length1 && diff[i, j] < fthresh {
      diff[i, j] := 0.0;
    }
    forall i, j | 0 <= i < diff.Length0 && 0 <= j < diff.Length1 && diff[i, j] >= fthresh {
      diff[i, j] := 255.0;
    }
  }

  /** With a positive threshold the mask becomes binary, 255 exactly where
      the value reached the threshold; with a threshold of zero or below the
      zeros written by the first pass are caught by the second, so every
      cell becomes 255. */
  lemma DiffLevelSpec(v: real, fthresh: real)
    ensures fthresh > 0.0 ==> (DiffLevel(v, fthresh) == 255.0 <==> v >= fthresh)
    ensures fthresh > 0.0 ==> (DiffLevel(v, fthresh) == 0.0 <==> v < fthresh)
    ensures fthresh <= 0.0 ==> DiffLevel(v, fthresh) == 255.0
  {
  }

  // ---------------------------------------------------------------------------
  // Kernel sizes from the presence mask's extent

  /** The least k in [lo, hi) with p(k), or hi when there is none. */
  function FirstWhere(p: int -> bool, lo: int, hi: int): (r: int)
    requires lo <= hi
    ensures lo <= r <= hi
    ensures forall k :: lo <= k < r ==> !p(k)
    ensures r < hi ==> p(r)
    decreases hi - lo
  {
    if lo == hi then hi
    else if p(lo) then lo
    else FirstWhere(p, lo + 1, hi)
  }

  /** The greatest k in [lo, hi) with p(k), or lo - 1 when there is none. */
  function LastWhere(p: int -> bool, lo: int, hi: int): (r: int)
    requires lo <= hi
    ensures lo - 1 <= r < hi
    ensures forall k :: r < k < hi ==> !p(k)
    ensures r >= lo ==> p(r)
    decreases hi - lo
  {
    if lo == hi then lo - 1
    else if p(hi - 1) then hi - 1
    else LastWhere(p, lo, hi - 1)
  }

  /** A cell of the presence mask that is fully on. */
  predicate Full(g: Grid<real>, i: int, j: int) {
    InBounds(g, i, j) && g.cells[i][j] == 255.0
  }

  predicate RowHas(g: Grid<real>, i: int) {
    exists j :: 0 <= j < g.cols && Full(g, i, j)
  }

  predicate ColHas(g: Grid<real>, j: int) {
    exists i :: 0 <= i < g.rows && Full(g, i, j)
  }

  /** The bounding rows and columns of the fully-on cells. */
  datatype Extent = Extent(top: int, bottom: int, left: int, right: int)

  function RowTest(g: Grid<real>): int -> bool {
    i => RowHas(g, i)
  }

  function ColTest(g: Grid<real>): int -> bool {
    j => ColHas(g, j)
  }

  lemma FullCellsAreTested(g: Grid<real>)
    ensures forall i, j :: Full(g, i, j) ==> RowTest(g)(i) && ColTest(g)(j)
  {
    forall i, j | Full(g, i, j) ensures RowTest(g)(i) && ColTest(g)(j) {
      assert RowHas(g, i) && ColHas(g, j);
    }
  }

  /** The least and greatest row and column index among the cells equal to
      255, or None when there is no such cell (`np.where` then `np.min` and
      `np.max`). */
  function MaskExtent(g: Grid<real>): Option<Extent> {
    var top := FirstWhere(RowTest(g), 0, g.rows);
    if top == g.rows then None
    else
      Some(Extent(top, LastWhere(RowTest(g), 0, g.rows),
                  FirstWhere(ColTest(g), 0, g.cols), LastWhere(ColTest(g), 0, g.cols)))
  }

  /** The extent exists exactly when some cell is fully on; it is then the
      tightest box holding every fully-on cell, each of its four sides
      touching one. */
  lemma MaskExtentSpec(g: Grid<real>)
    ensures var r := MaskExtent(g);
      r.None? <==> forall i, j :: !Full(g, i, j)
    ensures var r := MaskExtent(g);
      r.Some? ==>
        var e := r.value;
        && 0 <= e.top <= e.bottom < g.rows
        && 0 <= e.left <= e.right < g.cols
        && RowHas(g, e.top) && RowHas(g, e.bottom) && ColHas(g, e.left) && ColHas(g, e.right)
        && forall i, j :: Full(g, i, j) ==> e.top <= i <= e.bottom && e.left <= j <= e.right
  {
    MaskExtentNone(g);
    if MaskExtent(g).Some? {
      MaskExtentBox(g);
    }
  }

  lemma MaskExtentNone(g: Grid<real>)
    ensures MaskExtent(g).None? <==> forall i, j :: !Full(g, i, j)
  {
    FullCellsAreTested(g);
    var top := FirstWhere(RowTest(g), 0, g.rows);
    if top < g.rows {
      assert RowTest(g)(top);
      var j0 :| 0 <= j0 < g.cols && Full(g, top, j0);
    }
  }

  lemma MaskExtentBox(g: Grid<real>)
    requires MaskExtent(g).Some?
    ensures var e := MaskExtent(g).value;
        && 0 <= e.top <= e.bottom < g.rows
        && 0 <= e.left <= e.right < g.cols
        && RowHas(g, e.top) && RowHas(g, e.bottom) && ColHas(g, e.left) && ColHas(g, e.right)
        && forall i, j :: Full(g, i, j) ==> e.top <= i <= e.bottom && e.left <= j <= e.right
  {
    FullCellsAreTested(g);
    ExtentOfSomeFullCell(g);
    var e := MaskExtent(g).value;
    assert RowTest(g)(e.top) && RowTest(g)(e.bottom);
    forall i, j | Full(g, i, j) ensures e.top <= i <= e.bottom && e.left <= j <= e.right {
      assert RowTest(g)(i) && ColTest(g)(j);
    }
  }

  lemma ExtentOfSomeFullCell(g: Grid<real>)
    requires FirstWhere(RowTest(g), 0, g.rows) < g.rows
    requires forall i, j :: Full(g, i, j) ==> RowTest(g)(i) && ColTest(g)(j)
    ensures
      var top := FirstWhere(RowTest(g), 0, g.rows);
      var bottom := LastWhere(RowTest(g), 0, g.rows);
      var left := FirstWhere(ColTest(g), 0, g.cols);
      var right := LastWhere(ColTest(g), 0, g.cols);
      top <= bottom && 0 <= left <= right < g.cols && ColHas(g, left) && ColHas(g, right)
  {
    var top := FirstWhere(RowTest(g), 0, g.rows);
    assert RowTest(g)(top);
    var j0 :| 0 <= j0 < g.cols && Full(g, top, j0);
    assert ColTest(g)(j0);
    var left := FirstWhere(ColTest(g), 0, g.cols);
    var right := LastWhere(ColTest(g), 0, g.cols);
    assert left <= j0 <= right;
    assert ColTest(g)(left) && ColTest(g)(right);
  }

  /** The floor of the square root. */
  function ISqrt(n: nat): (r: nat)
    ensures r * r <= n < (r + 1) * (r + 1)
  {
    if n == 0 then 0
    else
      var half := ISqrt(n / 4);
      ISqrtStep(n, half);
      if (2 * half + 1) * (2 * half + 1) <= n then 2 * half + 1 else 2 * half
  }

  /** Doubling the root of a quarter brackets the root of the whole. */
  lemma ISqrtStep(n: nat, half: nat)
    requires half * half <= n / 4 < (half + 1) * (half + 1)
    ensures (2 * half) * (2 * half) <= n < (2 * half + 2) * (2 * half + 2)
  {
    DoubleSquare(half);
    DoubleSquare(half + 1);
    assert 2 * half + 2 == 2 * (half + 1);
  }

  lemma DoubleSquare(h: int)
    ensures (2 * h) * (2 * h) == 4 * (h * h)
  {
  }

  /** `int()` of a float: truncation toward zero. */
  function Trunc(x: real): (r: int)
    ensures x >= 0.0 ==> r as real <= x < r as real + 1.0
    ensures x < 0.0 ==> r as real - 1.0 < x <= r as real
  {
    if x >= 0.0 then x.Floor else -((-x).Floor)
  }

  /** The side of the presence mask's bounding box, as the floor square
      root of its height times its width; a mask with no fully-on cell
      has no extent and the step raises. */
  function MaskSize(mask: Grid<real>): (r: Result<nat>)
    ensures r.Err? <==> forall i, j :: !Full(mask, i, j)
    ensures r.Err? ==> r.error == ValueError
    ensures r.Ok? ==> MaskExtent(mask).Some?
    ensures r.Ok? ==>
      var e := MaskExtent(mask).value;
      var area := (e.bottom - e.top) * (e.right - e.left);
      r.value * r.value <= area < (r.value + 1) * (r.value + 1)
  {
    MaskExtentSpec(mask);
    match MaskExtent(mask)
    case None => Err(ValueError)
    case Some(e) =>
      var height: nat := e.bottom - e.top;
      var width: nat := e.right - e.left;
      MulNat(height, width);
      Ok(ISqrt(height * width))
  }

  /** The erosion kernel side: a tenth of the mask size, and at least ten,
      both scaled by the erosion factor. */
  function ErosionKernel(maskSize: nat, ef: real): int {
    Max(Trunc((maskSize / 10) as real * ef), Trunc(10.0 * ef))
  }

  /** Half the presence mask's blur size: a twentieth of the mask size, and at
      least five, both scaled by the erosion factor. */
  function MaskBlurHalf(maskSize: nat, ef: real): int {
    Max(Trunc((maskSize / 20) as real * ef), Trunc(5.0 * ef))
  }

  /** Half the difference mask's blur size. */
  function DiffBlurHalf(ef: real): int {
    Trunc(5.0 * ef)
  }

  /** A Gaussian blur size made of a half-size: always odd. */
  function BlurSize(k: int): (b: int)
    ensures b % 2 == 1
    ensures b > 2 * k
  {
    2 * k + 1
  }

  /** The kernel sizes of the compositing step. */
  datatype Kernels = Kernels(erosion: int, maskBlur: int, diffBlur: int)

  /** The kernel sizes for a presence mask under the configured erosion
      factor (default 1). */
  function KernelSizes(mask: Grid<real>, opts: Settings.Options): (r: Result<Kernels>)
    ensures r.Err? <==> forall i, j :: !Full(mask, i, j)
    ensures r.Ok? ==>
      var ef := Settings.ErosionFactor(opts);
      && r.value.erosion >= Trunc(10.0 * ef)
      && r.value.maskBlur % 2 == 1 && r.value.diffBlur % 2 == 1
      && r.value.diffBlur == 2 * Trunc(5.0 * ef) + 1
    ensures r.Ok? ==>
      var ef := Settings.ErosionFactor(opts);
      && MaskSize(mask).Ok?
      && r.value.erosion == ErosionKernel(MaskSize(mask).value, ef)
      && r.value.maskBlur == BlurSize(MaskBlurHalf(MaskSize(mask).value, ef))
      && r.value.diffBlur == BlurSize(DiffBlurHalf(ef))
  {
    match MaskSize(mask)
    case Err(e) => Err(e)
    case Ok(size) =>
      var ef := Settings.ErosionFactor(opts);
      Ok(Kernels(ErosionKernel(size, ef), BlurSize(MaskBlurHalf(size, ef)), BlurSize(DiffBlurHalf(ef))))
  }

  lemma MulNat(a: nat, b: nat)
    ensures a * b >= 0
  {
  }

  lemma ScaleMonotone(a: real, b: real, c: real)
    requires a <= b && c >= 0.0
    ensures a * c <= b * c
  {
  }

  lemma TruncMonotone(x: real, y: real)
    requires x <= y
    ensures Trunc(x) <= Trunc(y)
  {
  }

  /** For a non-negative erosion factor the kernels grow with the mask. */
  lemma KernelsGrowWithMask(s1: nat, s2: nat, ef: real)
    requires s1 <= s2 && ef >= 0.0
    ensures ErosionKernel(s1, ef) <= ErosionKernel(s2, ef)
    ensures MaskBlurHalf(s1, ef) <= MaskBlurHalf(s2, ef)
  {
    assert s1 / 10 <= s2 / 10;
    ScaleMonotone((s1 / 10) as real, (s2 / 10) as real, ef);
    TruncMonotone((s1 / 10) as real * ef, (s2 / 10) as real * ef);
    assert s1 / 20 <= s2 / 20;
    ScaleMonotone((s1 / 20) as real, (s2 / 20) as real, ef);
    TruncMonotone((s1 / 20) as real * ef, (s2 / 20) as real * ef);
  }

  /** For a non-negative erosion factor the erosion kernel is at least the
      presence blur's half-size, which is at least the difference blur's,
      which is not negative. */
  lemma KernelOrder(s: nat, ef: real)
    requires ef >= 0.0
    ensures ErosionKernel(s, ef) >= MaskBlurHalf(s, ef) >= DiffBlurHalf(ef) >= 0
  {
    assert s / 20 <= s / 10;
    ScaleMonotone((s / 20) as real, (s / 10) as real, ef);
    TruncMonotone((s / 20) as real * ef, (s / 10) as real * ef);
    TruncMonotone(5.0 * ef, 10.0 * ef);
    TruncMonotone(0.0, 5.0 * ef);
  }

  /** With the default erosion factor of 1 the kernels are plain integer
      expressions of the mask size. */
  lemma KernelsAtDefaultFactor(s: nat)
    ensures ErosionKernel(s, 1.0) == Max(s / 10, 10)
    ensures MaskBlurHalf(s, 1.0) == Max(s / 20, 5)
    ensures DiffBlurHalf(1.0) == 5
  {
  }

  // ---------------------------------------------------------------------------
  // Normalisation and the final blend

  /** Both masks divided by 255 in place. */
  method DivideBy255(a: array2<real>)
    modifies a
    ensures forall i, j :: 0 <= i < a.Length0 && 0 <= j < a.Length1 ==> a[i, j] == old(a[i, j]) / 255.0
  {
    forall i, j | 0 <= i < a.Length0 && 0 <= j < a.Length1 {
      a[i, j] := a[i, j] / 255.0;
    }
  }

  /** A mask value in [0, 255] becomes a weight in [0, 1]; 0 and 255 map to
      the endpoints. */
  lemma NormalisedWeight(v: real)
    requires 0.0 <= v <= 255.0
    ensures 0.0 <= v / 255.0 <= 1.0
    ensures v / 255.0 == 0.0 <==> v == 0.0
    ensures v / 255.0 == 1.0 <==> v == 255.0
  {
  }

  /** `w * a + (1 - w) * b`. */
  function Mix(w: real, a: real, b: real): real {
    w * a + (1.0 - w) * b
  }

  lemma ConvexOrdered(w: real, lo: real, hi: real)
    requires 0.0 <= w <= 1.0 && lo <= hi
    ensures lo <= Mix(w, lo, hi) <= hi
  {
    var e := hi - lo;
    assert (1.0 - w) * hi == hi - w * hi;
    assert w * e == w * hi - w * lo;
    assert Mix(w, lo, hi) == hi - w * e;
    ScaleBetween(w, e);
  }

  lemma ScaleBetween(w: real, e: real)
    requires 0.0 <= w <= 1.0 && e >= 0.0
    ensures 0.0 <= w * e <= e
  {
    ScaleMonotone(0.0, w, e);
    ScaleMonotone(w, 1.0, e);
  }

  lemma MixSwap(w: real, a: real, b: real)
    ensures Mix(w, a, b) == Mix(1.0 - w, b, a)
  {
    assert 1.0 - (1.0 - w) == w;
  }

  /** A convex combination of two channel values lies between them. */
  lemma ConvexBetween(w: real, f: int, t: int)
    requires 0.0 <= w <= 1.0
    ensures Min(f, t) as real <= Mix(w, f as real, t as real) <= Max(f, t) as real
  {
    var a, b := f as real, t as real;
    if f <= t {
      ConvexOrdered(w, a, b);
    } else {
      ConvexOrdered(1.0 - w, b, a);
      MixSwap(w, a, b);
    }
  }

  /** One channel of `w * fake + (1 - w) * target`, cast back to 8 bits. */
  function BlendChannel(w: real, f: Byte, t: Byte): (r: Byte)
    requires 0.0 <= w <= 1.0
    ensures w == 0.0 ==> r == t
    ensures w == 1.0 ==> r == f
    ensures Min(f, t) <= r <= Max(f, t)
  {
    var v := Mix(w, f as real, t as real);
    ConvexBetween(w, f, t);
    v.Floor
  }

  function BlendPixel(w: real, f: Pixel, t: Pixel): Pixel
    requires 0.0 <= w <= 1.0
  {
    Pixel(BlendChannel(w, f.c0, t.c0), BlendChannel(w, f.c1, t.c1), BlendChannel(w, f.c2, t.c2))
  }

  predicate Weights(mask: Grid<real>) {
    forall i, j :: 0 <= i < mask.rows && 0 <= j < mask.cols ==> 0.0 <= mask.cells[i][j] <= 1.0
  }

  /** The final composite of the warped fake onto the target under the
      normalised presence mask; arrays of different shapes do not broadcast. */
  function Blend(mask: Grid<real>, fake: Image, target: Image): (r: Result<Image>)
    requires Weights(mask)
    ensures r.Err? <==> !SameShape(mask, fake) || !SameShape(fake, target)
    ensures r.Ok? ==>
      && SameShape(r.value, target)
      && forall i, j :: InBounds(target, i, j) ==>
           r.value.cells[i][j] == BlendPixel(mask.cells[i][j], fake.cells[i][j], target.cells[i][j])
  {
    if !SameShape(mask, fake) || !SameShape(fake, target) then Err(ValueError)
    else
      Ok(Raster(target.rows, target.cols,
        seq(target.rows, i requires 0 <= i < target.rows =>
          seq(target.cols, j requires 0 <= j < target.cols =>
            BlendPixel(mask.cells[i][j], fake.cells[i][j], target.cells[i][j])))))
  }

  /** Where the weight is 0 the composite keeps the target pixel, where it is
      1 it takes the fake pixel, and every channel lies between the two. */
  lemma BlendEndpoints(mask: Grid<real>, fake: Image, target: Image, i: int, j: int)
    requires Weights(mask) && SameShape(mask, fake) && SameShape(fake, target) && InBounds(target, i, j)
    ensures var p := Blend(mask, fake, target).value.cells[i][j];
      && (mask.cells[i][j] == 0.0 ==> p == target.cells[i][j])
      && (mask.cells[i][j] == 1.0 ==> p == fake.cells[i][j])
      && Min(fake.cells[i][j].c0, target.cells[i][j].c0) <= p.c0 <= Max(fake.cells[i][j].c0, target.cells[i][j].c0)
      && Min(fake.cells[i][j].c1, target.cells[i][j].c1) <= p.c1 <= Max(fake.cells[i][j].c1, target.cells[i][j].c1)
      && Min(fake.cells[i][j].c2, target.cells[i][j].c2) <= p.c2 <= Max(fake.cells[i][j].c2, target.cells[i][j].c2)
  {
  }

  /** A uniform weight of 1 gives back the fake, of 0 the target. */
  lemma BlendWithUniformMask(mask: Grid<real>, fake: Image, target: Image, w: real)
    requires SameShape(mask, fake) && SameShape(fake, target)
    requires w == 0.0 || w == 1.0
    requires forall i, j :: InBounds(mask, i, j) ==> mask.cells[i][j] == w
    ensures Weights(mask)
    ensures Blend(mask, fake, target) == Ok(if w == 1.0 then fake else target)
  {
    var r := Blend(mask, fake, target).value;
    var want := if w == 1.0 then fake else target;
    forall i | 0 <= i < target.rows ensures r.cells[i] == want.cells[i] {
      forall j | 0 <= j < target.cols ensures r.cells[i][j] == want.cells[i][j] {
        BlendEndpoints(mask, fake, target, i, j);
      }
    }
    assert r.cells == want.cells;
  }
}
