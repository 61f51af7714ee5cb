/** The 16 by 16 grid of cells that screenshots are compared on (src/image/diff.js). */
module Grid {
  import opened Integers
  import opened RowFilters
  import opened Png

  const GRID := 16

  ghost predicate Whole(image: Image) {
    |image.data| == Offset(image.width * 4, image.height)
  }

  function CellSize(n: nat): (size: nat)
    ensures size >= 1 && n <= GRID * size
  {
    if n == 0 then 1 else (n + GRID - 1) / GRID
  }

  /** Cells are as small as sixteen of them allow. */
  lemma CellSizeIs(n: nat, size: nat)
    ensures size == CellSize(n) <==>
              n <= 16 * size && 1 <= size && (size == 1 || 16 * (size - 1) < n)
  {
  }

  function Bucket(i: nat, size: nat): (cell: nat)
    requires size > 0
    ensures cell < GRID
  {
    if i / size < GRID then i / size else GRID - 1
  }

  /** The clamp to the last cell is never needed inside the image, so a cell is exactly its pixels. */
  lemma BucketIsExact(i: nat, n: nat)
    requires i < n
    ensures var size := CellSize(n); var cell := Bucket(i, size); cell * size <= i < (cell + 1) * size
  {
    var size := CellSize(n);
    var q := i / size;
    assert q * size <= i < (q + 1) * size by { assert i == q * size + i % size; }
    if q >= GRID {
      MulOrder(GRID, q, size);
    }
  }

  /** The cell of pixel (x, y). */
  function CellAt(a: Image, y: nat, x: nat): (cell: nat)
    ensures cell < GRID * GRID
  {
    Bucket(y, CellSize(a.height)) * GRID + Bucket(x, CellSize(a.width))
  }
}
