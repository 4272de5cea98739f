/**
 * `getAverageColor`: the mean colour of a `size` x `size` square whose
 * top-left corner is (x, y), clamped at the right and bottom image edges.
 *
 * The source walks columns i = x, x+1, ... (outer loop) and, inside each,
 * rows j = y, y+1, ... (inner loop), stopping at `x + size` / `y + size` or
 * at the image edge, whichever comes first. `ColumnSum` and `ColumnsSum`
 * follow that accumulation; `AverageColor` divides.
 */
module ColorSampler {
  import opened Pixels

  /** Running channel sums and the number of pixels added (`r`, `g`, `b`, `count`). */
  datatype Sums = Sums(r: int, g: int, b: int, count: nat)

  /** Every channel sum lies between 0 and 255 per pixel counted. */
  predicate Bounded(s: Sums) {
    0 <= s.r <= 255 * s.count && 0 <= s.g <= 255 * s.count && 0 <= s.b <= 255 * s.count
  }

  /** A mean channel value of 8-bit samples: between 0 and 255. */
  predicate ChannelInRange(v: real) {
    0.0 <= v <= 255.0
  }

  function Add(a: Sums, b: Sums): Sums {
    Sums(a.r + b.r, a.g + b.g, a.b + b.b, a.count + b.count)
  }

  lemma AddAssociative(x: Sums, y: Sums, z: Sums)
    ensures Add(Add(x, y), z) == Add(x, Add(y, z))
  {
  }

  /** The contribution of one in-bounds pixel: its R, G and B samples, counted once. */
  function PixelSums(img: Image, p: Pos): (s: Sums)
    requires ValidImage(img) && InBounds(img, p)
    ensures s.count == 1
    ensures 0 <= s.r <= 255 && 0 <= s.g <= 255 && 0 <= s.b <= 255
  {
    var idx := PixelIndex(img, p);
    Sums(img.pixels[idx], img.pixels[idx + 1], img.pixels[idx + 2], 1)
  }

  /** Exclusive loop bound: the loop stops at `start + size` or at the edge `limit`. */
  function ClampedEnd(start: nat, size: nat, limit: nat): nat {
    if start + size < limit then start + size else limit
  }

  /** Number of loop steps from `lo` up to (excluding) `hi`. */
  function Span(lo: int, hi: int): nat {
    if hi <= lo then 0 else hi - lo
  }

  /** The sums the inner loop holds after rows `y0` up to (excluding) `j` of column `i`. */
  function ColumnSum(img: Image, i: nat, y0: nat, j: nat): (s: Sums)
    requires ValidImage(img) && i < img.width && (j <= y0 || j <= img.height)
    ensures s.count == Span(y0, j)
    decreases j - y0, img
  {
    if j <= y0 then Sums(0, 0, 0, 0)
    else Add(ColumnSum(img, i, y0, j - 1), PixelSums(img, Pos(i, j - 1)))
  }

  /** The sums the outer loop holds after columns `x0` up to (excluding) `i`. */
  function ColumnsSum(img: Image, x0: nat, i: nat, y0: nat, yEnd: nat): Sums
    requires ValidImage(img) && (i <= x0 || i <= img.width) && yEnd <= img.height
    decreases i - x0, img
  {
    if i <= x0 then Sums(0, 0, 0, 0)
    else Add(ColumnsSum(img, x0, i - 1, y0, yEnd), ColumnSum(img, i - 1, y0, yEnd))
  }

  lemma MulSucc(a: int, b: int)
    ensures (a + 1) * b == a * b + b
  {
  }

  /** The outer loop has added `columns * rows` pixels. */
  lemma {:induction false} ColumnsSumCount(img: Image, x0: nat, i: nat, y0: nat, yEnd: nat)
    requires ValidImage(img) && (i <= x0 || i <= img.width) && yEnd <= img.height
    ensures ColumnsSum(img, x0, i, y0, yEnd).count == Span(x0, i) * Span(y0, yEnd)
    ensures ColumnsSum(img, x0, i, y0, yEnd).count > 0 <==> x0 < i && y0 < yEnd
    decreases i
  {
    if i > x0 {
      ColumnsSumCount(img, x0, i - 1, y0, yEnd);
      var columns, rows := Span(x0, i - 1), Span(y0, yEnd);
      assert Span(x0, i) == columns + 1;
      MulSucc(columns, rows);
    }
  }

  /**
   * What the nested loop accumulates for the square at (x, y): the columns
   * from `x` and the rows from `y`, each clamped at the image edge. It counts
   * at least one pixel exactly when the corner is inside the image and the
   * square is not empty.
   */
  function RegionSum(img: Image, x: nat, y: nat, size: nat): (s: Sums)
    requires ValidImage(img)
    ensures s.count > 0 <==> x < img.width && y < img.height && size > 0
  {
    var xEnd, yEnd := ClampedEnd(x, size, img.width), ClampedEnd(y, size, img.height);
    ColumnsSumCount(img, x, xEnd, y, yEnd);
    ColumnsSum(img, x, xEnd, y, yEnd)
  }

  /**
   * The source's pixel count: `min(size, w - x) * min(size, h - y)` when the
   * corner is inside the image, zero otherwise.
   */
  lemma RegionSumCount(img: Image, x: nat, y: nat, size: nat)
    requires ValidImage(img)
    ensures x < img.width && y < img.height ==>
      RegionSum(img, x, y, size).count == Min(size, img.width - x) * Min(size, img.height - y)
    ensures x >= img.width || y >= img.height ==> RegionSum(img, x, y, size).count == 0
  {
    var xEnd, yEnd := ClampedEnd(x, size, img.width), ClampedEnd(y, size, img.height);
    ColumnsSumCount(img, x, xEnd, y, yEnd);
    if x < img.width && y < img.height {
      assert Span(x, xEnd) == Min(size, img.width - x);
      assert Span(y, yEnd) == Min(size, img.height - y);
    } else if x >= img.width {
      assert Span(x, xEnd) == 0;
    } else {
      assert Span(y, yEnd) == 0;
    }
  }

  /** Each pixel of a column adds at most 255 per channel: the inner loop's sums are bounded. */
  lemma {:induction false} ColumnSumBounded(img: Image, i: nat, y0: nat, j: nat)
    requires ValidImage(img) && i < img.width && (j <= y0 || j <= img.height)
    ensures Bounded(ColumnSum(img, i, y0, j))
    decreases j - y0
  {
    if j > y0 {
      ColumnSumBounded(img, i, y0, j - 1);
    }
  }

  /** The outer loop's sums are bounded: at most 255 per channel for every pixel counted. */
  lemma {:induction false} ColumnsSumBounded(img: Image, x0: nat, i: nat, y0: nat, yEnd: nat)
    requires ValidImage(img) && (i <= x0 || i <= img.width) && yEnd <= img.height
    ensures Bounded(ColumnsSum(img, x0, i, y0, yEnd))
    decreases i - x0
  {
    if i > x0 {
      ColumnsSumBounded(img, x0, i - 1, y0, yEnd);
      ColumnSumBounded(img, i - 1, y0, yEnd);
    }
  }

  /** `{r: r/count, g: g/count, b: b/count}`, or `None` where the source divides 0 by 0. */
  function Mean(s: Sums): (c: Option<Color>)
    ensures c.None? <==> s.count == 0
    ensures c.Some? && Bounded(s) ==>
      ChannelInRange(c.value.r) && ChannelInRange(c.value.g) && ChannelInRange(c.value.b)
  {
    if s.count == 0 then None
    else Some(Color(s.r as real / s.count as real, s.g as real / s.count as real, s.b as real / s.count as real))
  }

  /**
   * `getAverageColor(img, x, y, size)`. Defined (not NaN) exactly when the
   * clamped square holds at least one pixel.
   */
  function AverageColor(img: Image, x: nat, y: nat, size: nat): (c: Option<Color>)
    requires ValidImage(img)
    ensures c.Some? <==> x < img.width && y < img.height && size > 0
  {
    Mean(RegionSum(img, x, y, size))
  }
  /** A mean that is not NaN has every channel in [0, 255], like the samples it averages. */
  lemma AverageColorInRange(img: Image, x: nat, y: nat, size: nat)
    requires ValidImage(img)
    ensures var c := AverageColor(img, x, y, size);
      c.Some? ==> ChannelInRange(c.value.r) && ChannelInRange(c.value.g) && ChannelInRange(c.value.b)
  {
    ColumnsSumBounded(img, x, ClampedEnd(x, size, img.width), y, ClampedEnd(y, size, img.height));
  }


  /** A pixel of the square at (x, y) of side `size` that lies inside the image. */
  predicate InSquare(img: Image, x: nat, y: nat, size: nat, p: Pos) {
    InBounds(img, p) && x <= p.x < x + size && y <= p.y < y + size
  }

  /** Sums in which every counted pixel had colour (r, g, b). */
  predicate UniformSums(s: Sums, r: int, g: int, b: int) {
    s == Sums(s.count * r, s.count * g, s.count * b, s.count)
  }

  lemma UniformAdd(s: Sums, t: Sums, r: int, g: int, b: int)
    requires UniformSums(s, r, g, b) && UniformSums(t, r, g, b)
    ensures UniformSums(Add(s, t), r, g, b)
  {
    var m, n := s.count, t.count;
    assert m * r + n * r == (m + n) * r;
    assert m * g + n * g == (m + n) * g;
    assert m * b + n * b == (m + n) * b;
  }

  lemma {:induction false} UniformColumn(img: Image, i: nat, y0: nat, j: nat, r: int, g: int, b: int)
    requires ValidImage(img) && i < img.width && (j <= y0 || j <= img.height)
    requires forall k :: y0 <= k < j ==> PixelSums(img, Pos(i, k)) == Sums(r, g, b, 1)
    ensures UniformSums(ColumnSum(img, i, y0, j), r, g, b)
    decreases j
  {
    if j > y0 {
      UniformColumn(img, i, y0, j - 1, r, g, b);
      UniformAdd(ColumnSum(img, i, y0, j - 1), PixelSums(img, Pos(i, j - 1)), r, g, b);
    }
  }

  lemma {:induction false} UniformColumns(img: Image, x0: nat, i: nat, y0: nat, yEnd: nat, r: int, g: int, b: int)
    requires ValidImage(img) && (i <= x0 || i <= img.width) && yEnd <= img.height
    requires forall p: Pos :: x0 <= p.x < i && y0 <= p.y < yEnd ==> PixelSums(img, p) == Sums(r, g, b, 1)
    ensures UniformSums(ColumnsSum(img, x0, i, y0, yEnd), r, g, b)
    decreases i
  {
    if i > x0 {
      UniformColumns(img, x0, i - 1, y0, yEnd, r, g, b);
      UniformColumn(img, i - 1, y0, yEnd, r, g, b);
      UniformAdd(ColumnsSum(img, x0, i - 1, y0, yEnd), ColumnSum(img, i - 1, y0, yEnd), r, g, b);
    }
  }

  /** A square whose in-bounds pixels all have colour (r, g, b) averages to exactly that colour. */
  lemma UniformRegionAverage(img: Image, x: nat, y: nat, size: nat, r: int, g: int, b: int)
    requires ValidImage(img)
    requires x < img.width && y < img.height && size > 0
    requires forall p: Pos :: InSquare(img, x, y, size, p) ==> PixelSums(img, p) == Sums(r, g, b, 1)
    ensures AverageColor(img, x, y, size) == Some(Color(r as real, g as real, b as real))
  {
    var xEnd, yEnd := ClampedEnd(x, size, img.width), ClampedEnd(y, size, img.height);
    forall p: Pos | x <= p.x < xEnd && y <= p.y < yEnd ensures PixelSums(img, p) == Sums(r, g, b, 1) {
      assert InSquare(img, x, y, size, p);
    }
    UniformColumns(img, x, xEnd, y, yEnd, r, g, b);
    var n := RegionSum(img, x, y, size).count;
    RealScale(n, r);
    RealScale(n, g);
    RealScale(n, b);
  }

  lemma RealScale(n: nat, v: int)
    requires n > 0
    ensures (n * v) as real / n as real == v as real
  {
    assert (n * v) as real == n as real * v as real;
  }

  lemma {:induction false} ColumnFrame(img1: Image, img2: Image, i: nat, y0: nat, j: nat)
    requires ValidImage(img1) && ValidImage(img2) && img1.width == img2.width && img1.height == img2.height
    requires i < img1.width && (j <= y0 || j <= img1.height)
    requires forall k :: y0 <= k < j ==> PixelSums(img1, Pos(i, k)) == PixelSums(img2, Pos(i, k))
    ensures ColumnSum(img1, i, y0, j) == ColumnSum(img2, i, y0, j)
    decreases j
  {
    if j > y0 {
      ColumnFrame(img1, img2, i, y0, j - 1);
    }
  }

  lemma {:induction false} ColumnsFrame(img1: Image, img2: Image, x0: nat, i: nat, y0: nat, yEnd: nat)
    requires ValidImage(img1) && ValidImage(img2) && img1.width == img2.width && img1.height == img2.height
    requires (i <= x0 || i <= img1.width) && yEnd <= img1.height
    requires forall p: Pos :: x0 <= p.x < i && y0 <= p.y < yEnd ==> PixelSums(img1, p) == PixelSums(img2, p)
    ensures ColumnsSum(img1, x0, i, y0, yEnd) == ColumnsSum(img2, x0, i, y0, yEnd)
    decreases i
  {
    if i > x0 {
      ColumnsFrame(img1, img2, x0, i - 1, y0, yEnd);
      var col := i - 1;
      forall k | y0 <= k < yEnd
        ensures PixelSums(img1, Pos(col, k)) == PixelSums(img2, Pos(col, k))
      {
        assert x0 <= Pos(col, k).x < i && y0 <= Pos(col, k).y < yEnd;
      }
      ColumnFrame(img1, img2, col, y0, yEnd);
    }
  }

  /**
   * Only the in-bounds pixels of the square are read: two images of the same
   * size that agree there have the same average colour at (x, y).
   */
  lemma AverageColorFrame(img1: Image, img2: Image, x: nat, y: nat, size: nat)
    requires ValidImage(img1) && ValidImage(img2)
    requires img1.width == img2.width && img1.height == img2.height
    requires forall p: Pos :: InSquare(img1, x, y, size, p) ==> PixelSums(img1, p) == PixelSums(img2, p)
    ensures AverageColor(img1, x, y, size) == AverageColor(img2, x, y, size)
  {
    var xEnd, yEnd := ClampedEnd(x, size, img1.width), ClampedEnd(y, size, img1.height);
    forall p: Pos | x <= p.x < xEnd && y <= p.y < yEnd ensures PixelSums(img1, p) == PixelSums(img2, p) {
      assert InSquare(img1, x, y, size, p);
    }
    ColumnsFrame(img1, img2, x, xEnd, y, yEnd);
  }

  /**
   * The source's nested loop, accumulating `r`, `g`, `b` and `count`
   * pixel by pixel, then dividing.
   */
  method GetAverageColor(img: Image, x: nat, y: nat, size: nat) returns (c: Option<Color>)
    requires ValidImage(img)
    ensures c == AverageColor(img, x, y, size)
  {
    var sums := Sums(0, 0, 0, 0);
    var xEnd := ClampedEnd(x, size, img.width);
    var yEnd := ClampedEnd(y, size, img.height);
    var i := x;
    while i < x + size && i < img.width
      invariant x <= i
      invariant i <= xEnd || i == x
      invariant sums == ColumnsSum(img, x, i, y, yEnd)
    {
      sums := AddColumn(img, i, y, size, sums);
      i := i + 1;
    }
    c := Mean(sums);
  }

  /** The inner loop of `GetAverageColor`: adds column `i`, rows `y` onwards, to `acc`. */
  method AddColumn(img: Image, i: nat, y: nat, size: nat, acc: Sums) returns (sums: Sums)
    requires ValidImage(img) && i < img.width
    ensures sums == Add(acc, ColumnSum(img, i, y, ClampedEnd(y, size, img.height)))
  {
    var yEnd := ClampedEnd(y, size, img.height);
    sums := acc;
    var j := y;
    while j < y + size && j < img.height
      invariant y <= j
      invariant j <= yEnd || j == y
      invariant sums == Add(acc, ColumnSum(img, i, y, j))
    {
      var idx := PixelIndex(img, Pos(i, j));
      sums := Sums(sums.r + img.pixels[idx], sums.g + img.pixels[idx + 1], sums.b + img.pixels[idx + 2],
                   sums.count + 1);
      AddAssociative(acc, ColumnSum(img, i, y, j), PixelSums(img, Pos(i, j)));
      j := j + 1;
    }
  }
}
