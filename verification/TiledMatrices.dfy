/** Matrices stored row by row, column by column or tile by tile (`Matrix`, `TiledMatrix`), and copies between them (`copyMatrix`). */
module TiledMatrices {
  import opened Arithmetic

  // ---------------------------------------------------------------- two-digit positions

  /** Digit `hi` over digit `lo`, in base `base`. */
  ghost function Pos(hi: nat, lo: nat, base: nat): nat {
    hi * base + lo
  }

  lemma PosBound(hi: nat, lo: nat, base: nat, n: nat)
    requires lo < base && hi < n
    ensures Pos(hi, lo, base) < n * base
  {
    MulGap(hi, n, base);
  }

  lemma PosInjective(hi: nat, lo: nat, hi': nat, lo': nat, base: nat)
    requires lo < base && lo' < base && Pos(hi, lo, base) == Pos(hi', lo', base)
    ensures hi == hi' && lo == lo'
  {
    DivModUnique(hi, lo, base);
    DivModUnique(hi', lo', base);
  }

  // ---------------------------------------------------------------- layouts

  datatype Layout = Plain(rowMajor: bool, ld: nat) | Tiled(rowMajor: bool, tile: nat)

  /** How many tiles cover `dim` elements. */
  function CalcTiles(dim: nat, tile: nat): nat
    requires tile > 0
  {
    (dim + tile - 1) / tile
  }

  /** A plain matrix needs rows (or columns) as far apart as they are long; a tiled one needs tiles of some size. */
  ghost predicate Fits(l: Layout, rows: nat, cols: nat) {
    match l
    case Plain(rowMajor, ld) => ld >= if rowMajor then cols else rows
    case Tiled(_, tile) => tile > 0
  }

  /** How much storage a matrix takes. */
  function StorageSize(l: Layout, rows: nat, cols: nat): int
    requires Fits(l, rows, cols)
  {
    match l
    case Plain(rowMajor, ld) =>
      if rows == 0 || cols == 0 then 0 else if rowMajor then (rows - 1) * ld + cols else (cols - 1) * ld + rows
    case Tiled(_, tile) =>
      CalcTiles(rows, tile) * CalcTiles(cols, tile) * (tile * tile)
  }

  /** Where element `(i, j)` is stored. A tile is a small plain matrix of its own. */
  function Index(l: Layout, rows: nat, cols: nat, i: nat, j: nat): int
    requires Fits(l, rows, cols) && i < rows && j < cols
  {
    match l
    case Plain(true, ld) => i * ld + j
    case Plain(false, ld) => j * ld + i
    case Tiled(true, tile) =>
      CalcTiles(cols, tile) * (i / tile) * (tile * tile) + (j / tile) * (tile * tile) + (i % tile) * tile + j % tile
    case Tiled(false, tile) =>
      CalcTiles(rows, tile) * (j / tile) * (tile * tile) + (i / tile) * (tile * tile) + (j % tile) * tile + i % tile
  }

  lemma TileExists(k: nat, dim: nat, tile: nat)
    requires tile > 0 && k < dim
    ensures k / tile < CalcTiles(dim, tile)
  {
    var t, r := k / tile, k % tile;
    var m := dim + tile - 1;
    var q, s := m / tile, m % tile;
    assert k == t * tile + r && m == q * tile + s;
    assert q <= t ==> q * tile <= t * tile;
  }

  /** The tiled index as digits: tile row over tile column, over row over column within the tile. */
  ghost function TilePos(major: nat, minor: nat, minorDim: nat, tile: nat): nat
    requires tile > 0
  {
    Pos(Pos(major / tile, minor / tile, CalcTiles(minorDim, tile)), Pos(major % tile, minor % tile, tile), tile * tile)
  }

  lemma TilePosIs(major: nat, minor: nat, minorDim: nat, tile: nat)
    requires tile > 0
    ensures TilePos(major, minor, minorDim, tile) ==
              CalcTiles(minorDim, tile) * (major / tile) * (tile * tile) + (minor / tile) * (tile * tile) + (major % tile) * tile + minor % tile
  {
    Distribute(major / tile, minor / tile, CalcTiles(minorDim, tile), tile * tile);
  }

  lemma Distribute(a: nat, b: nat, n: nat, area: nat)
    ensures (a * n + b) * area == n * a * area + b * area
  {
  }

  lemma TilePosBound(major: nat, minor: nat, majorDim: nat, minorDim: nat, tile: nat)
    requires tile > 0 && major < majorDim && minor < minorDim
    ensures TilePos(major, minor, minorDim, tile) < CalcTiles(majorDim, tile) * CalcTiles(minorDim, tile) * (tile * tile)
  {
    TileExists(major, majorDim, tile);
    TileExists(minor, minorDim, tile);
    hide Pos, CalcTiles;
    PosBound(major / tile, minor / tile, CalcTiles(minorDim, tile), CalcTiles(majorDim, tile));
    PosBound(major % tile, minor % tile, tile, tile);
    PosBound(Pos(major / tile, minor / tile, CalcTiles(minorDim, tile)), Pos(major % tile, minor % tile, tile), tile * tile,
             CalcTiles(majorDim, tile) * CalcTiles(minorDim, tile));
  }

  lemma FourDigits(a: nat, b: nat, c: nat, d: nat, a': nat, b': nat, c': nat, d': nat, n: nat, tile: nat, area: nat)
    requires b < n && b' < n && d < tile && d' < tile && Pos(c, d, tile) < area && Pos(c', d', tile) < area
    requires Pos(Pos(a, b, n), Pos(c, d, tile), area) == Pos(Pos(a', b', n), Pos(c', d', tile), area)
    ensures a == a' && b == b' && c == c' && d == d'
  {
    hide Pos;
    PosInjective(Pos(a, b, n), Pos(c, d, tile), Pos(a', b', n), Pos(c', d', tile), area);
    PosInjective(a, b, a', b', n);
    PosInjective(c, d, c', d', tile);
  }

  lemma TilePosDigits(a: nat, b: nat, minorDim: nat, tile: nat, area: nat) returns (qa: nat, qb: nat, ra: nat, rb: nat)
    requires tile > 0 && b < minorDim && area == tile * tile
    ensures a == Pos(qa, ra, tile) && b == Pos(qb, rb, tile) && rb < tile && qb < CalcTiles(minorDim, tile) && Pos(ra, rb, tile) < area
    ensures TilePos(a, b, minorDim, tile) == Pos(Pos(qa, qb, CalcTiles(minorDim, tile)), Pos(ra, rb, tile), area)
  {
    TileExists(b, minorDim, tile);
    qa, qb, ra, rb := a / tile, b / tile, a % tile, b % tile;
    assert a == Pos(qa, ra, tile) && b == Pos(qb, rb, tile);
    hide Pos, CalcTiles;
    PosBound(ra, rb, tile, tile);
  }

  lemma TilePosInjective(a: nat, b: nat, a': nat, b': nat, minorDim: nat, tile: nat)
    requires tile > 0 && b < minorDim && b' < minorDim && TilePos(a, b, minorDim, tile) == TilePos(a', b', minorDim, tile)
    ensures a == a' && b == b'
  {
    hide *;
    var area := tile * tile;
    var qa, qb, ra, rb := TilePosDigits(a, b, minorDim, tile, area);
    var qa', qb', ra', rb' := TilePosDigits(a', b', minorDim, tile, area);
    FourDigits(qa, qb, ra, rb, qa', qb', ra', rb', CalcTiles(minorDim, tile), tile, area);
  }

  lemma PlainInRange(i: nat, j: nat, rows: nat, cols: nat, ld: nat)
    requires i < rows && j < cols
    ensures 0 <= i * ld + j < (rows - 1) * ld + cols
  {
    if i < rows - 1 { MulGap(i, rows - 1, ld); }
  }

  lemma TiledInRange(rowMajor: bool, tile: nat, rows: nat, cols: nat, i: nat, j: nat)
    requires tile > 0 && i < rows && j < cols
    ensures 0 <= Index(Tiled(rowMajor, tile), rows, cols, i, j) < StorageSize(Tiled(rowMajor, tile), rows, cols)
  {
    if rowMajor {
      TilePosIs(i, j, cols, tile);
      TilePosBound(i, j, rows, cols, tile);
    } else {
      TilePosIs(j, i, rows, tile);
      TilePosBound(j, i, cols, rows, tile);
      Commute(CalcTiles(rows, tile), CalcTiles(cols, tile));
    }
    hide TilePos, CalcTiles;
  }

  /** Every element has a place in the storage. */
  lemma IndexInRange(l: Layout, rows: nat, cols: nat, i: nat, j: nat)
    requires Fits(l, rows, cols) && i < rows && j < cols
    ensures 0 <= Index(l, rows, cols, i, j) < StorageSize(l, rows, cols)
  {
    match l
    case Plain(true, ld) => PlainInRange(i, j, rows, cols, ld);
    case Plain(false, ld) => PlainInRange(j, i, cols, rows, ld);
    case Tiled(rowMajor, tile) =>
      TiledInRange(rowMajor, tile, rows, cols, i, j);
      hide Index, StorageSize;
  }

  lemma Commute(a: nat, b: nat)
    ensures a * b == b * a
  {
  }

  /** No two elements share a place. */
  lemma IndexInjective(l: Layout, rows: nat, cols: nat, i: nat, j: nat, i': nat, j': nat)
    requires Fits(l, rows, cols) && i < rows && j < cols && i' < rows && j' < cols
    requires Index(l, rows, cols, i, j) == Index(l, rows, cols, i', j')
    ensures i == i' && j == j'
  {
    match l
    case Plain(rowMajor, ld) =>
      if rowMajor { PosInjective(i, j, i', j', ld); } else { PosInjective(j, i, j', i', ld); }
    case Tiled(rowMajor, tile) =>
      if rowMajor {
        TilePosIs(i, j, cols, tile);
        TilePosIs(i', j', cols, tile);
        TilePosInjective(i, j, i', j', cols, tile);
      } else {
        TilePosIs(j, i, rows, tile);
        TilePosIs(j', i', rows, tile);
        TilePosInjective(j, i, j', i', rows, tile);
      }
  }

  // ---------------------------------------------------------------- where neighbours are

  lemma NextInTile(k: nat, tile: nat)
    requires tile > 0
    ensures (k + 1) % tile != 0 ==> (k + 1) / tile == k / tile && (k + 1) % tile == k % tile + 1
    ensures (k + 1) % tile == 0 ==> (k + 1) / tile == k / tile + 1 && k % tile == tile - 1
  {
    var q, r := k / tile, k % tile;
    assert k == q * tile + r;
    if r == tile - 1 {
      assert k + 1 == (q + 1) * tile + 0;
      DivModUnique(q + 1, 0, tile);
    } else {
      DivModUnique(q, r + 1, tile);
    }
  }

  /** The place of an element with digits `c`, `d` within the tile with digits `a`, `b`. */
  ghost function Place(n: nat, a: nat, b: nat, c: nat, d: nat, tile: nat): int {
    n * a * (tile * tile) + b * (tile * tile) + c * tile + d
  }

  lemma PlaceSteps(n: nat, a: nat, b: nat, c: nat, d: nat, tile: nat)
    requires tile > 0
    ensures Place(n, a, b, c, d + 1, tile) == Place(n, a, b, c, d, tile) + 1
    ensures Place(n, a, b, c + 1, d, tile) == Place(n, a, b, c, d, tile) + tile
    ensures Place(n, a, b + 1, c, 0, tile) == Place(n, a, b, c, tile - 1, tile) + (tile * tile - (tile - 1))
  {
  }

  lemma PlaceRow(n: nat, a: nat, b: nat, d: nat, tile: nat)
    requires tile > 0
    ensures Place(n, a + 1, b, 0, d, tile) == Place(n, a, b, tile - 1, d, tile) + (n * (tile * tile) - (tile - 1) * tile)
  {
    assert n * (a + 1) == n * a + n;
    assert (n * a + n) * (tile * tile) == n * a * (tile * tile) + n * (tile * tile);
  }

  /** What one step along the minor, and one along the major direction adds. */
  lemma MinorStep(n: nat, major: nat, minor: nat, tile: nat)
    requires tile > 0
    ensures Place(n, major / tile, (minor + 1) / tile, major % tile, (minor + 1) % tile, tile) ==
            Place(n, major / tile, minor / tile, major % tile, minor % tile, tile)
            + if (minor + 1) % tile != 0 then 1 else tile * tile - (tile - 1)
  {
    NextInTile(minor, tile);
    PlaceSteps(n, major / tile, minor / tile, major % tile, minor % tile, tile);
    hide Place;
  }

  lemma MajorStep(n: nat, major: nat, minor: nat, tile: nat)
    requires tile > 0
    ensures Place(n, (major + 1) / tile, minor / tile, (major + 1) % tile, minor % tile, tile) ==
            Place(n, major / tile, minor / tile, major % tile, minor % tile, tile)
            + if (major + 1) % tile != 0 then tile else n * (tile * tile) - (tile - 1) * tile
  {
    NextInTile(major, tile);
    PlaceSteps(n, major / tile, minor / tile, major % tile, minor % tile, tile);
    PlaceRow(n, major / tile, minor / tile, minor % tile, tile);
    hide Place;
  }

  lemma IndexIsPlace(rowMajor: bool, tile: nat, rows: nat, cols: nat, i: nat, j: nat)
    requires tile > 0 && i < rows && j < cols
    ensures Index(Tiled(rowMajor, tile), rows, cols, i, j) ==
            if rowMajor then Place(CalcTiles(cols, tile), i / tile, j / tile, i % tile, j % tile, tile)
            else Place(CalcTiles(rows, tile), j / tile, i / tile, j % tile, i % tile, tile)
  {
    hide CalcTiles;
  }

  lemma FirstPlace(rowMajor: bool, tile: nat, rows: nat, cols: nat)
    requires tile > 0 && 0 < rows && 0 < cols
    ensures Index(Tiled(rowMajor, tile), rows, cols, 0, 0) == 0
  {
    DivModUnique(0, 0, tile);
    hide CalcTiles;
  }

  /** One step along the rows of a row-major matrix, or along the columns of a column-major one, is one place, and one step across is the
      distance between rows or columns; in a tiled matrix that is so within a tile, and the next tile follows a whole tile, or a
      whole row or column of tiles, behind. */
  lemma TileNeighbours(rowMajor: bool, tile: nat, rows: nat, cols: nat, i: nat, j: nat)
    requires tile > 0 && i < rows && j < cols
    ensures var l := Tiled(rowMajor, tile);
            && Index(l, rows, cols, 0, 0) == 0
            && (j + 1 < cols ==>
                  Index(l, rows, cols, i, j + 1) - Index(l, rows, cols, i, j) ==
                  (if rowMajor then (if (j + 1) % tile != 0 then 1 else tile * tile - (tile - 1))
                   else if (j + 1) % tile != 0 then tile else CalcTiles(rows, tile) * (tile * tile) - (tile - 1) * tile))
            && (i + 1 < rows ==>
                  Index(l, rows, cols, i + 1, j) - Index(l, rows, cols, i, j) ==
                  (if rowMajor then (if (i + 1) % tile != 0 then tile else CalcTiles(cols, tile) * (tile * tile) - (tile - 1) * tile)
                   else if (i + 1) % tile != 0 then 1 else tile * tile - (tile - 1)))
  {
    hide *;
    FirstPlace(rowMajor, tile, rows, cols);
    IndexIsPlace(rowMajor, tile, rows, cols, i, j);
    if j + 1 < cols {
      IndexIsPlace(rowMajor, tile, rows, cols, i, j + 1);
      if rowMajor { MinorStep(CalcTiles(cols, tile), i, j, tile); } else { MajorStep(CalcTiles(rows, tile), j, i, tile); }
    }
    if i + 1 < rows {
      IndexIsPlace(rowMajor, tile, rows, cols, i + 1, j);
      if rowMajor { MajorStep(CalcTiles(cols, tile), i, j, tile); } else { MinorStep(CalcTiles(rows, tile), j, i, tile); }
    }
  }

  /** The same of a plain matrix. */
  lemma PlainNeighbours(rowMajor: bool, ld: nat, rows: nat, cols: nat, i: nat, j: nat)
    requires Fits(Plain(rowMajor, ld), rows, cols) && i < rows && j < cols
    ensures var l := Plain(rowMajor, ld);
            && Index(l, rows, cols, 0, 0) == 0
            && (j + 1 < cols ==> Index(l, rows, cols, i, j + 1) - Index(l, rows, cols, i, j) == if rowMajor then 1 else ld)
            && (i + 1 < rows ==> Index(l, rows, cols, i + 1, j) - Index(l, rows, cols, i, j) == if rowMajor then ld else 1)
  {
  }

  /** Each tile is contiguous: element `(i, j)` lies in tile `(i / tile, j / tile)`, the tiles standing row by row or column by column. */
  lemma TileIsContiguous(rowMajor: bool, tile: nat, rows: nat, cols: nat, i: nat, j: nat)
    requires tile > 0 && i < rows && j < cols
    ensures var before := if rowMajor then Pos(i / tile, j / tile, CalcTiles(cols, tile)) else Pos(j / tile, i / tile, CalcTiles(rows, tile));
            before * (tile * tile) <= Index(Tiled(rowMajor, tile), rows, cols, i, j) < before * (tile * tile) + tile * tile
  {
    if rowMajor {
      TilePosIs(i, j, cols, tile);
      PosBound(i % tile, j % tile, tile, tile);
    } else {
      TilePosIs(j, i, rows, tile);
      PosBound(j % tile, i % tile, tile, tile);
    }
    hide CalcTiles;
  }

  // ---------------------------------------------------------------- matrices over an array

  class Mat<T> {
    const data: array<T>
    const rows: nat
    const cols: nat
    const layout: Layout

    constructor (data: array<T>, rows: nat, cols: nat, layout: Layout)
      ensures this.data == data && this.rows == rows && this.cols == cols && this.layout == layout
    {
      this.data, this.rows, this.cols, this.layout := data, rows, cols, layout;
    }

    ghost predicate Valid() {
      Fits(layout, rows, cols) && StorageSize(layout, rows, cols) <= data.Length
    }

    /** The element `(i, j)`. */
    function At(i: nat, j: nat): T
      reads data
      requires Valid() && i < rows && j < cols
    {
      IndexInRange(layout, rows, cols, i, j);
      data[Index(layout, rows, cols, i, j)]
    }

    /** Writes one element and leaves all others alone. */
    method Set(i: nat, j: nat, x: T)
      requires Valid() && i < rows && j < cols
      modifies data
      ensures At(i, j) == x
      ensures forall i': nat, j': nat :: i' < rows && j' < cols && (i', j') != (i, j) ==> At(i', j') == old(At(i', j'))
    {
      IndexInRange(layout, rows, cols, i, j);
      hide Index, StorageSize;
      data[Index(layout, rows, cols, i, j)] := x;
      forall i': nat, j': nat | i' < rows && j' < cols && (i', j') != (i, j) ensures At(i', j') == old(At(i', j')) {
        if Index(layout, rows, cols, i', j') == Index(layout, rows, cols, i, j) { IndexInjective(layout, rows, cols, i, j, i', j'); }
      }
    }
  }

  /** The first `i` rows of `dst`, and `j` elements of the next, equal those of `src`. */
  ghost predicate CopiedTo<T>(dst: Mat<T>, src: Mat<T>, i: nat, j: nat)
    reads dst.data, src.data
    requires dst.Valid() && src.Valid() && dst.rows == src.rows && dst.cols == src.cols
  {
    forall a: nat, b: nat :: a < src.rows && b < src.cols && (a < i || (a == i && b < j)) ==> dst.At(a, b) == src.At(a, b)
  }

  /** Copies a matrix into one of the same size but possibly another layout. */
  method CopyMatrix<T>(dst: Mat<T>, src: Mat<T>)
    requires dst.Valid() && src.Valid() && dst.rows == src.rows && dst.cols == src.cols && dst.data != src.data
    modifies dst.data
    ensures CopiedTo(dst, src, src.rows, 0)
  {
    hide Mat.At, Mat.Valid;
    for i := 0 to src.rows
      invariant CopiedTo(dst, src, i, 0)
    {
      for j := 0 to src.cols
        invariant CopiedTo(dst, src, i, j)
      {
        dst.Set(i, j, src.At(i, j));
      }
    }
  }

  /** Copying into any layout and back is the identity. */
  method CopyThereAndBack<T>(m: Mat<T>, other: Mat<T>)
    requires m.Valid() && other.Valid() && m.rows == other.rows && m.cols == other.cols && m.data != other.data
    modifies m.data, other.data
    ensures forall i: nat, j: nat :: i < m.rows && j < m.cols ==> m.At(i, j) == old(m.At(i, j))
  {
    hide Mat.At, Mat.Valid;
    CopyMatrix(other, m);
    CopyMatrix(m, other);
  }
}
