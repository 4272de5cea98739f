/**
 * The section grid (`processedPixels`): one record per 10 x 10 cell of the
 * 800 x 600 processing area below the two preview images, each with its
 * canvas corner and a `processed` flag; and the flag bookkeeping the frame
 * loop does on it.
 */
module RegionGrid {
  import opened Pixels
  import opened ColorSampler

  /** The processing area is 800 x 600 and starts at canvas row 300. */
  const AREA_WIDTH: nat := 800
  const AREA_HEIGHT: nat := 600
  const AREA_TOP: nat := 300

  /** 80 columns and 60 rows of sections. */
  const GRID_COLUMNS: nat := 80
  const GRID_ROWS: nat := 60
  const GRID_SIZE: nat := 4800

  /** One entry of `processedPixels`: canvas corner `(x, y)` and whether it has been filled. */
  datatype Section = Section(x: int, y: int, processed: bool)

  /** The `k`-th record `setup` pushes: row `k / 80`, column `k % 80`, not processed. */
  function GridCell(k: nat): (c: Section)
    ensures !c.processed && 0 <= c.x < AREA_WIDTH && c.x % SECTION_SIZE == 0
    ensures AREA_TOP <= c.y && (c.y - AREA_TOP) % SECTION_SIZE == 0
    ensures k < GRID_SIZE <==> c.y < AREA_TOP + AREA_HEIGHT
  {
    Section(SECTION_SIZE * (k % GRID_COLUMNS), AREA_TOP + SECTION_SIZE * (k / GRID_COLUMNS), false)
  }

  /** `processedPixels` right after `setup`. */
  function Grid(): (g: seq<Section>)
    ensures |g| == GRID_SIZE
  {
    seq(GRID_SIZE, k requires 0 <= k < GRID_SIZE => GridCell(k))
  }

  /** Row-major cell numbering: cell (`row`, `col`) is record `row * 80 + col`. */
  lemma CellIndex(row: nat, col: nat)
    requires col < GRID_COLUMNS
    ensures (row * GRID_COLUMNS + col) / GRID_COLUMNS == row
    ensures (row * GRID_COLUMNS + col) % GRID_COLUMNS == col
  {
  }

  /**
   * `setup`'s nested loop: `y` from 0 to 600 and, inside, `x` from 0 to
   * 800, both by `SECTION_SIZE`, pushing `{x, y: y + 300, processed: false}`.
   */
  method BuildGrid() returns (sections: seq<Section>)
    ensures sections == Grid()
  {
    sections := [];
    var y := 0;
    ghost var row := 0;
    while y < AREA_HEIGHT
      invariant y == SECTION_SIZE * row && row <= GRID_ROWS
      invariant |sections| == row * GRID_COLUMNS
      invariant forall k :: 0 <= k < |sections| ==> sections[k] == GridCell(k)
    {
      var x := 0;
      ghost var col := 0;
      while x < AREA_WIDTH
        invariant x == SECTION_SIZE * col && col <= GRID_COLUMNS
        invariant |sections| == row * GRID_COLUMNS + col
        invariant forall k :: 0 <= k < |sections| ==> sections[k] == GridCell(k)
      {
        CellIndex(row, col);
        sections := sections + [Section(x, y + AREA_TOP, false)];
        x := x + SECTION_SIZE;
        col := col + 1;
      }
      y := y + SECTION_SIZE;
      row := row + 1;
    }
  }

  /** A corner on the 10-pixel lattice of the processing area. */
  predicate GridCorner(x: int, y: int) {
    && 0 <= x < AREA_WIDTH && x % SECTION_SIZE == 0
    && AREA_TOP <= y < AREA_TOP + AREA_HEIGHT && (y - AREA_TOP) % SECTION_SIZE == 0
  }

  /**
   * The grid is exactly the lattice: 4800 unprocessed records, each on a
   * lattice corner, no corner twice, and every corner present.
   */
  lemma GridShape()
    ensures |Grid()| == GRID_COLUMNS * GRID_ROWS
    ensures forall k :: 0 <= k < |Grid()| ==> GridCorner(Grid()[k].x, Grid()[k].y) && !Grid()[k].processed
    ensures forall i, j :: 0 <= i < j < |Grid()| ==>
      Grid()[i].x != Grid()[j].x || Grid()[i].y != Grid()[j].y
    ensures forall x, y :: GridCorner(x, y) ==>
      exists k :: 0 <= k < |Grid()| && Grid()[k].x == x && Grid()[k].y == y
  {
    forall x, y | GridCorner(x, y)
      ensures exists k :: 0 <= k < |Grid()| && Grid()[k].x == x && Grid()[k].y == y
    {
      var row, col := (y - AREA_TOP) / SECTION_SIZE, x / SECTION_SIZE;
      CellIndex(row, col);
      var k := row * GRID_COLUMNS + col;
      assert Grid()[k].x == x && Grid()[k].y == y;
    }
  }

  /**
   * The square `draw` samples for a section, `(x, y - 300)` with side 10, lies
   * inside an 800 x 600 image, so all 100 of its pixels are counted and its
   * mean colour is never NaN.
   */
  lemma GridSamplesInBounds(img: Image, k: nat)
    requires ValidImage(img) && img.width == AREA_WIDTH && img.height == AREA_HEIGHT
    requires k < GRID_SIZE
    ensures Grid()[k].y >= AREA_TOP
    ensures RegionSum(img, Grid()[k].x, Grid()[k].y - AREA_TOP, SECTION_SIZE).count == 100
    ensures AverageColor(img, Grid()[k].x, Grid()[k].y - AREA_TOP, SECTION_SIZE).Some?
  {
    var s := Grid()[k];
    RegionSumCount(img, s.x, s.y - AREA_TOP, SECTION_SIZE);
  }

  /** Number of records whose flag is set. */
  function ProcessedCount(s: seq<Section>): (c: nat)
    ensures c <= |s|
    decreases |s|
  {
    if |s| == 0 then 0
    else ProcessedCount(s[..|s| - 1]) + (if s[|s| - 1].processed then 1 else 0)
  }

  /**
   * `processedPixels.filter(p => !p.processed)`, as the indices of the
   * records it keeps, in their original order.
   */
  function Unprocessed(s: seq<Section>): (u: seq<nat>)
    ensures |u| <= |s|
    ensures forall i :: 0 <= i < |u| ==> u[i] < |s|
    decreases |s|
  {
    if |s| == 0 then []
    else Unprocessed(s[..|s| - 1]) + (if s[|s| - 1].processed then [] else [|s| - 1])
  }

  /**
   * The filter keeps exactly the unprocessed records, each once and in
   * order, so it has one entry per record not yet processed.
   */
  lemma UnprocessedSpec(s: seq<Section>)
    ensures |Unprocessed(s)| == |s| - ProcessedCount(s)
    ensures forall i :: 0 <= i < |Unprocessed(s)| ==>
      Unprocessed(s)[i] < |s| && !s[Unprocessed(s)[i]].processed
    ensures forall i, j :: 0 <= i < j < |Unprocessed(s)| ==> Unprocessed(s)[i] < Unprocessed(s)[j]
    ensures forall k :: 0 <= k < |s| && !s[k].processed ==> k in Unprocessed(s)
  {
    UnprocessedLength(s);
    UnprocessedSound(s);
    UnprocessedComplete(s);
  }

  lemma {:induction false} UnprocessedLength(s: seq<Section>)
    ensures |Unprocessed(s)| == |s| - ProcessedCount(s)
    decreases |s|
  {
    if |s| > 0 {
      UnprocessedLength(s[..|s| - 1]);
    }
  }

  lemma {:induction false} UnprocessedSound(s: seq<Section>)
    ensures forall i :: 0 <= i < |Unprocessed(s)| ==>
      Unprocessed(s)[i] < |s| && !s[Unprocessed(s)[i]].processed
    ensures forall i, j :: 0 <= i < j < |Unprocessed(s)| ==> Unprocessed(s)[i] < Unprocessed(s)[j]
    decreases |s|
  {
    if |s| > 0 {
      var last := |s| - 1;
      var pre := s[..last];
      UnprocessedSound(pre);
      forall i | 0 <= i < |Unprocessed(pre)|
        ensures !s[Unprocessed(pre)[i]].processed
      {
        assert pre[Unprocessed(pre)[i]] == s[Unprocessed(pre)[i]];
      }
    }
  }

  lemma {:induction false} UnprocessedComplete(s: seq<Section>)
    ensures forall k :: 0 <= k < |s| && !s[k].processed ==> k in Unprocessed(s)
    decreases |s|
  {
    if |s| > 0 {
      var last := |s| - 1;
      var pre := s[..last];
      UnprocessedComplete(pre);
      forall k | 0 <= k < |s| && !s[k].processed
        ensures k in Unprocessed(s)
      {
        if k < last {
          assert pre[k] == s[k];
          assert k in Unprocessed(pre);
        }
      }
    }
  }

  /** Some record is still waiting exactly when fewer than all are processed. */
  lemma UnprocessedEmpty(s: seq<Section>)
    ensures |Unprocessed(s)| == 0 <==> ProcessedCount(s) == |s|
    ensures |Unprocessed(s)| == 0 <==> forall k :: 0 <= k < |s| ==> s[k].processed
  {
    UnprocessedSpec(s);
  }

  /** `currentPixel.processed = true` for record `k`. */
  function Mark(s: seq<Section>, k: nat): (r: seq<Section>)
    requires k < |s|
    ensures |r| == |s| && r[k].processed
    ensures r[k].x == s[k].x && r[k].y == s[k].y
    ensures forall i :: 0 <= i < |s| && i != k ==> r[i] == s[i]
  {
    s[k := s[k].(processed := true)]
  }

  /** Marking an unprocessed record raises the processed count by exactly one. */
  lemma {:induction false} MarkCount(s: seq<Section>, k: nat)
    requires k < |s| && !s[k].processed
    ensures ProcessedCount(Mark(s, k)) == ProcessedCount(s) + 1
    decreases |s|
  {
    var last := |s| - 1;
    var r := Mark(s, k);
    if k == last {
      assert r[..last] == s[..last];
    } else {
      MarkCount(s[..last], k);
      assert r[..last] == Mark(s[..last], k);
    }
  }

  /** `processedPixels.forEach(p => p.processed = false)`. */
  function ClearFlags(s: seq<Section>): (r: seq<Section>)
    ensures |r| == |s|
    ensures forall i :: 0 <= i < |s| ==> r[i] == s[i].(processed := false)
  {
    seq(|s|, i requires 0 <= i < |s| => s[i].(processed := false))
  }

  /** After clearing, nothing is processed. */
  lemma {:induction false} ClearFlagsCount(s: seq<Section>)
    ensures ProcessedCount(ClearFlags(s)) == 0
    decreases |s|
  {
    if |s| > 0 {
      var last := |s| - 1;
      ClearFlagsCount(s[..last]);
      assert ClearFlags(s)[..last] == ClearFlags(s[..last]);
    }
  }

  /** Clearing twice is clearing once. */
  lemma ClearFlagsIdempotent(s: seq<Section>)
    ensures ClearFlags(ClearFlags(s)) == ClearFlags(s)
  {
  }

  /** Two flag lists over the same sections: only the flags may differ. */
  predicate SamePositions(a: seq<Section>, b: seq<Section>) {
    |a| == |b| && forall i :: 0 <= i < |a| ==> a[i].x == b[i].x && a[i].y == b[i].y
  }
}
