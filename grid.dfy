/**
 * The `grid` crate: a dense, row-major grid of values with `(width, height)`
 * dimensions, assertion-checked indexed access, an unchecked-per-axis `get`,
 * and three cursors that walk the grid in row-major order.
 */
module DenseGrid {

  /** A `UVec2` used as a grid coordinate: column `x`, row `y`. */
  datatype Coord = Coord(x: nat, y: nat)

  datatype Option<T> = None | Some(value: T)

  /**
   * The outcome of indexed access (`Index`, `IndexMut`): the cell, or the
   * failed assertion of `assert_index_in_range`, which reports the offending
   * index and the grid's dimensions and stops the program.
   */
  datatype Checked<T> = Ok(value: T) | IndexOutOfBounds(index: Coord, dimensions: Coord)

  /** The condition that `assert_index_in_range` asserts. */
  predicate InRange(index: Coord, dimensions: Coord)
  {
    index.x < dimensions.x && index.y < dimensions.y
  }

  // ---------------------------------------------------------------------------
  // Arithmetic of row-major addressing
  // ---------------------------------------------------------------------------

  lemma MulAtLeast(d: int, w: nat)
    requires d >= 1
    ensures d * w >= w
  {
    assert d * w == (d - 1) * w + w;
    assert (d - 1) * w >= 0;
  }

  /** Quotient and remainder are unique: the basis of every inverse below. */
  lemma DivModUnique(n: nat, w: nat, q: nat, r: nat)
    requires r < w && n == q * w + r
    ensures n / w == q && n % w == r
  {
    var q', r' := n / w, n % w;
    assert n == q' * w + r';
    assert (q - q') * w == r' - r;
    if q > q' {
      MulAtLeast(q - q', w);
    } else if q < q' {
      MulAtLeast(q' - q, w);
    }
  }

  /**
   * The coordinate a cursor holds after `n` calls of `next` over rows of
   * `width` cells: `x` runs fastest and wraps into the next row. With width 0
   * every step wraps, so only `y` moves.
   */
  function Position(n: nat, width: nat): Coord
  {
    if width == 0 then Coord(0, n) else Coord(n % width, n / width)
  }

  /** `flatten_index`: the slot of `index` in the row-major storage. */
  function FlattenIndex(index: Coord, width: nat): nat
  {
    index.y * width + index.x
  }

  /** For a column inside the row, `Position` undoes flattening: the two are inverse. */
  lemma FlattenPosition(index: Coord, width: nat)
    requires index.x < width
    ensures Position(FlattenIndex(index, width), width) == index
  {
    DivModUnique(FlattenIndex(index, width), width, index.y, index.x);
  }

  /** Every in-range coordinate flattens to a slot below `width * height`. */
  lemma FlattenInRange(index: Coord, dimensions: Coord)
    requires InRange(index, dimensions)
    ensures FlattenIndex(index, dimensions.x) < dimensions.x * dimensions.y
  {
    var w, h := dimensions.x, dimensions.y;
    MulAtLeast(h - index.y, w);
    assert (h - index.y) * w == h * w - index.y * w;
  }

  /** Flattening is injective on coordinates whose column lies inside the row. */
  lemma FlattenInjective(a: Coord, b: Coord, width: nat)
    requires a.x < width && b.x < width
    ensures FlattenIndex(a, width) == FlattenIndex(b, width) <==> a == b
  {
    FlattenPosition(a, width);
    FlattenPosition(b, width);
  }

  /** `Position` is a right inverse of flattening: step `n` sits in slot `n`. */
  lemma PositionFlatten(n: nat, width: nat)
    requires width > 0
    ensures Position(n, width).x < width
    ensures FlattenIndex(Position(n, width), width) == n
  {
    assert n == (n / width) * width + n % width;
  }

  /** Step `n` is a cell of the grid exactly when `n < width * height`. */
  lemma PositionInRange(n: nat, dimensions: Coord)
    requires dimensions.x > 0
    ensures InRange(Position(n, dimensions.x), dimensions) <==> n < dimensions.x * dimensions.y
  {
    var w, h := dimensions.x, dimensions.y;
    var c := Position(n, w);
    PositionFlatten(n, w);
    if c.y < h {
      FlattenInRange(c, dimensions);
    } else {
      MulAtLeast(c.y - h + 1, w);
      assert n >= c.y * w;
      assert c.y * w == (c.y - h) * w + h * w;
      assert (c.y - h) * w >= 0;
    }
  }

  /** Every cell of a grid is reached, at the step equal to its flat index. */
  lemma PositionCovers(c: Coord, dimensions: Coord)
    requires InRange(c, dimensions)
    ensures FlattenIndex(c, dimensions.x) < dimensions.x * dimensions.y
    ensures Position(FlattenIndex(c, dimensions.x), dimensions.x) == c
  {
    FlattenInRange(c, dimensions);
    FlattenPosition(c, dimensions.x);
  }

  /** Distinct steps reach distinct coordinates, so no cell is visited twice. */
  lemma PositionInjective(m: nat, n: nat, width: nat)
    requires width > 0 && Position(m, width) == Position(n, width)
    ensures m == n
  {
    PositionFlatten(m, width);
    PositionFlatten(n, width);
  }

  /** Row-major order: an earlier step is in an earlier row, or further left in the same row. */
  lemma PositionOrder(m: nat, n: nat, width: nat)
    requires width > 0 && m < n
    ensures var a, b := Position(m, width), Position(n, width);
      a.y < b.y || (a.y == b.y && a.x < b.x)
  {
    var a, b := Position(m, width), Position(n, width);
    PositionFlatten(m, width);
    PositionFlatten(n, width);
    if a.y > b.y {
      MulAtLeast(a.y - b.y, width);
    }
  }

  /**
   * One call of `next` moves the cursor from step `n` to step `n + 1`:
   * `x += 1`, and on reaching the width `x = 0, y += 1`.
   */
  lemma PositionStep(n: nat, width: nat)
    ensures var c := Position(n, width);
      Position(n + 1, width) == if c.x + 1 >= width then Coord(0, c.y + 1) else Coord(c.x + 1, c.y)
  {
    if width > 0 {
      var c := Position(n, width);
      PositionFlatten(n, width);
      if c.x + 1 >= width {
        DivModUnique(n + 1, width, c.y + 1, 0);
      } else {
        DivModUnique(n + 1, width, c.y, c.x + 1);
      }
    }
  }

  /** The `len` of every cursor, as written: the flattened cursor index. */
  function CursorLen(index: Coord, width: nat): nat
  {
    FlattenIndex(index, width)
  }

  /** The remaining-length hint that `len` is meant to give: cells not yet produced. */
  function CursorRemaining(index: Coord, dimensions: Coord): nat
  {
    var total := dimensions.x * dimensions.y;
    var produced := FlattenIndex(index, dimensions.x);
    if produced <= total then total - produced else 0
  }

  /**
   * The cursor's `len` counts the calls of `next` made so far, so it is 0 on a
   * fresh cursor and grows as the cursor advances.
   */
  lemma LenCountsProduced(n: nat, width: nat)
    requires width > 0
    ensures CursorLen(Position(n, width), width) == n
  {
    PositionFlatten(n, width);
  }

  /** The intended hint counts the cells still to come, and 0 once the cursor is past the end. */
  lemma RemainingCountsLeft(n: nat, dimensions: Coord)
    requires dimensions.x > 0
    ensures CursorRemaining(Position(n, dimensions.x), dimensions)
         == if n <= dimensions.x * dimensions.y then dimensions.x * dimensions.y - n else 0
  {
    PositionFlatten(n, dimensions.x);
  }

  /**
   * The discrepancy: a fresh cursor over a grid with cells reports `len() == 0`
   * although all `width * height` cells are still to come.
   */
  lemma FreshCursorLen(dimensions: Coord)
    requires dimensions.x > 0 && dimensions.y > 0
    ensures CursorLen(Coord(0, 0), dimensions.x) == 0
    ensures CursorRemaining(Coord(0, 0), dimensions) == dimensions.x * dimensions.y > 0
  {
    MulAtLeast(dimensions.y, dimensions.x);
  }

  // ---------------------------------------------------------------------------
  // The grid
  // ---------------------------------------------------------------------------

  /** `Grid<T>`: row-major storage `data` and fixed `dimensions = (width, height)`. */
  class Grid<T> {
    const dimensions: Coord
    var data: seq<T>

    /** The storage holds exactly one value per cell; the grid is never resized. */
    ghost predicate Valid()
      reads this
    {
      |data| == dimensions.x * dimensions.y
    }

    /** `Grid::from_value`: `width * height` copies of `value`. */
    constructor FromValue(width: nat, height: nat, value: T)
      ensures Valid() && dimensions == Coord(width, height)
      ensures forall i | 0 <= i < |data| :: data[i] == value
      ensures forall c | InRange(c, dimensions) :: Index(c) == Ok(value)
    {
      dimensions := Coord(width, height);
      data := seq(width * height, _ => value);
      new;
      forall c | InRange(c, dimensions)
        ensures Index(c) == Ok(value)
      {
        FlattenInRange(c, dimensions);
      }
    }

    /**
     * `Grid::from_fn`: pushes `f(x, y)` for every row `y`, and within it every
     * column `x`; so cell `(x, y)` holds `f(x, y)`.
     */
    constructor FromFn(width: nat, height: nat, f: (nat, nat) -> T)
      ensures Valid() && dimensions == Coord(width, height)
      ensures forall c | InRange(c, dimensions) :: Index(c) == Ok(f(c.x, c.y))
    {
      var cells: seq<T> := [];
      for y := 0 to height
        invariant |cells| == y * width
        invariant forall k | 0 <= k < |cells| :: cells[k] == f(Position(k, width).x, Position(k, width).y)
      {
        for x := 0 to width
          invariant |cells| == y * width + x
          invariant forall k | 0 <= k < |cells| :: cells[k] == f(Position(k, width).x, Position(k, width).y)
        {
          FlattenPosition(Coord(x, y), width);
          cells := cells + [f(x, y)];
        }
      }
      dimensions := Coord(width, height);
      data := cells;
      new;
      forall c | InRange(c, dimensions)
        ensures Index(c) == Ok(f(c.x, c.y))
      {
        PositionCovers(c, dimensions);
      }
    }

    /** `Clone::clone`: a new grid with the same dimensions and a copy of the storage. */
    constructor Clone(other: Grid<T>)
      ensures dimensions == other.dimensions && data == other.data
    {
      dimensions := other.dimensions;
      data := other.data;
    }

    /** The number of columns; with `Height`, it accounts for the whole storage. */
    function Width(): (r: nat)
      reads this
      ensures Valid() ==> r * dimensions.y == |data|
    {
      dimensions.x
    }

    /** The number of rows. */
    function Height(): (r: nat)
      reads this
      ensures Valid() ==> dimensions.x * r == |data|
    {
      dimensions.y
    }

    /**
     * `grid[index]`: asserts that both axes are in range, then reads the slot
     * `y * width + x`.
     */
    function Index(index: Coord): (r: Checked<T>)
      reads this
      requires Valid()
      ensures r.IndexOutOfBounds? <==> index.x >= Width() || index.y >= Height()
      ensures r.IndexOutOfBounds? ==> r.index == index && r.dimensions == dimensions
      ensures r.Ok? ==> FlattenIndex(index, Width()) < |data| && r.value == data[FlattenIndex(index, Width())]
    {
      if InRange(index, dimensions) then
        FlattenInRange(index, dimensions);
        Ok(data[FlattenIndex(index, dimensions.x)])
      else
        IndexOutOfBounds(index, dimensions)
    }

    /** The value stored in slot `k` is the cell at row-major step `k`. */
    lemma IndexAtPosition(k: nat)
      requires Valid() && k < |data|
      ensures Index(Position(k, Width())) == Ok(data[k])
    {
      PositionInRange(k, dimensions);
      PositionFlatten(k, Width());
    }

    /**
     * `get`: checks only the flat slot against the storage length, not each
     * axis; `None` exactly when the slot is past the end.
     */
    function Get(index: Coord): (r: Option<T>)
      reads this
      ensures r.None? <==> FlattenIndex(index, Width()) >= |data|
      ensures r.Some? ==> r.value == data[FlattenIndex(index, Width())]
    {
      var k := FlattenIndex(index, dimensions.x);
      if k < |data| then Some(data[k]) else None
    }

    /** On in-range coordinates `get` and indexed access agree. */
    lemma GetAgreesWithIndex(index: Coord)
      requires Valid() && InRange(index, dimensions)
      ensures Get(index) == Some(Index(index).value)
    {
      FlattenInRange(index, dimensions);
    }

    /**
     * Without a per-axis check, a column past the width reads the next row:
     * `get((x, y))` is `get((x - width, y + 1))`.
     */
    lemma GetWrapsIntoNextRow(index: Coord)
      requires Width() > 0 && index.x >= Width()
      ensures Get(index) == Get(Coord(index.x - Width(), index.y + 1))
    {
      assert (index.y + 1) * Width() == index.y * Width() + Width();
    }

    /**
     * A witness of the missing axis check: in a grid of at least two rows,
     * `(width, 0)` fails indexed access but `get` returns the first cell of
     * row 1.
     */
    lemma GetAcceptsColumnPastWidth()
      requires Valid() && Width() > 0 && Height() > 1
      ensures Index(Coord(Width(), 0)).IndexOutOfBounds?
      ensures Get(Coord(Width(), 0)) == Some(Index(Coord(0, 1)).value)
    {
      GetWrapsIntoNextRow(Coord(Width(), 0));
      GetAgreesWithIndex(Coord(0, 1));
    }

    /**
     * `indexed write` (`grid[index] = value`, and `put`): asserts both axes
     * are in range, then replaces that one cell.
     */
    method Put(index: Coord, value: T) returns (r: Checked<()>)
      requires Valid()
      modifies this
      ensures Valid()
      ensures r.IndexOutOfBounds? <==> index.x >= Width() || index.y >= Height()
      ensures r.IndexOutOfBounds? ==> data == old(data)
      ensures r.Ok? ==> FlattenIndex(index, Width()) < |old(data)| && data == old(data)[FlattenIndex(index, Width()) := value]
      ensures r.Ok? ==> Index(index) == Ok(value)
      ensures r.Ok? ==> forall c | InRange(c, dimensions) && c != index :: Index(c) == old(Index(c))
    {
      if InRange(index, dimensions) {
        FlattenInRange(index, dimensions);
        data := data[FlattenIndex(index, dimensions.x) := value];
        r := Ok(());
        forall c | InRange(c, dimensions) && c != index
          ensures Index(c) == old(Index(c))
        {
          FlattenInRange(c, dimensions);
          FlattenInjective(c, index, Width());
        }
      } else {
        r := IndexOutOfBounds(index, dimensions);
      }
    }

    /**
     * `get_mut(index)` followed by an assignment through the reference it
     * returns: the write happens exactly when `get` would have found a slot,
     * with the same missing per-axis check.
     */
    method GetMut(index: Coord, value: T) returns (found: bool)
      modifies this
      ensures found <==> old(Get(index)).Some?
      ensures found ==> data == old(data)[FlattenIndex(index, Width()) := value]
      ensures !found ==> data == old(data)
    {
      var k := FlattenIndex(index, dimensions.x);
      found := k < |data|;
      if found {
        data := data[k := value];
      }
    }
  }

  // ---------------------------------------------------------------------------
  // Cursors
  // ---------------------------------------------------------------------------

  /** `Cells`: the values of a grid in row-major order (`Grid::iter`). */
  class Cells<T> {
    const grid: Grid<T>
    var index: Coord
    /** The number of calls of `next` so far. */
    ghost var steps: nat

    ghost predicate Valid()
      reads this
    {
      index == Position(steps, grid.dimensions.x)
    }

    /** `Grid::iter`: a cursor at `(0, 0)`. */
    constructor (grid: Grid<T>)
      ensures this.grid == grid && index == Coord(0, 0) && steps == 0 && Valid()
    {
      this.grid := grid;
      index := Coord(0, 0);
      steps := 0;
    }

    /** `next`: the value in slot `steps` while there is one, then `None` forever. */
    method Next() returns (item: Option<T>)
      requires Valid() && grid.Valid()
      modifies this
      ensures Valid() && steps == old(steps) + 1
      ensures item == if old(steps) < |grid.data| then Some(grid.data[old(steps)]) else None
    {
      if grid.Width() > 0 {
        PositionFlatten(steps, grid.Width());
      }
      PositionStep(steps, grid.Width());
      item := grid.Get(index);
      index := Coord(index.x + 1, index.y);
      if index.x >= grid.Width() {
        index := Coord(0, index.y + 1);
      }
      steps := steps + 1;
    }

    /** `len`, as written: the number of calls of `next` made so far, or 0 when the width is 0. */
    function Len(): (r: nat)
      reads this
      requires Valid()
      ensures grid.dimensions.x > 0 ==> r == steps
      ensures grid.dimensions.x == 0 ==> r == 0
    {
      assert grid.dimensions.x > 0 ==> CursorLen(index, grid.dimensions.x) == steps by {
        if grid.dimensions.x > 0 { LenCountsProduced(steps, grid.dimensions.x); }
      }
      CursorLen(index, grid.dimensions.x)
    }

    /** The intended `len`: the number of values `next` will still produce. */
    function Remaining(): (r: nat)
      reads this, grid
      requires Valid() && grid.Valid()
      ensures r == if steps <= |grid.data| then |grid.data| - steps else 0
    {
      assert grid.dimensions.x > 0 ==>
        CursorRemaining(index, grid.dimensions) == if steps <= |grid.data| then |grid.data| - steps else 0
      by {
        if grid.dimensions.x > 0 { RemainingCountsLeft(steps, grid.dimensions); }
      }
      CursorRemaining(index, grid.dimensions)
    }
  }

  /** `EnumerateCells`: `(coordinate, value)` pairs in row-major order (`Grid::enumerate`). */
  class EnumerateCells<T> {
    const grid: Grid<T>
    var index: Coord
    /** The number of calls of `next` so far. */
    ghost var steps: nat

    ghost predicate Valid()
      reads this
    {
      index == Position(steps, grid.dimensions.x)
    }

    /** `Grid::enumerate`: a cursor at `(0, 0)`. */
    constructor (grid: Grid<T>)
      ensures this.grid == grid && index == Coord(0, 0) && steps == 0 && Valid()
    {
      this.grid := grid;
      index := Coord(0, 0);
      steps := 0;
    }

    /**
     * `next`: slot `steps` paired with its coordinate while there is one, then
     * `None` forever; the coordinate is the cell's own (`IndexAtPosition`).
     */
    method Next() returns (item: Option<(Coord, T)>)
      requires Valid() && grid.Valid()
      modifies this
      ensures Valid() && steps == old(steps) + 1
      ensures item == if old(steps) < |grid.data|
                      then Some((Position(old(steps), grid.Width()), grid.data[old(steps)]))
                      else None
    {
      var value := grid.Get(index);
      assert value == if steps < |grid.data| then Some(grid.data[steps]) else None by {
        if grid.Width() > 0 {
          PositionFlatten(steps, grid.Width());
        }
      }
      item := if value.Some? then Some((index, value.value)) else None;
      PositionStep(steps, grid.Width());
      index := Coord(index.x + 1, index.y);
      if index.x >= grid.Width() {
        index := Coord(0, index.y + 1);
      }
      steps := steps + 1;
    }

    /** `len`, as written: the number of calls of `next` made so far, or 0 when the width is 0. */
    function Len(): (r: nat)
      reads this
      requires Valid()
      ensures grid.dimensions.x > 0 ==> r == steps
      ensures grid.dimensions.x == 0 ==> r == 0
    {
      assert grid.dimensions.x > 0 ==> CursorLen(index, grid.dimensions.x) == steps by {
        if grid.dimensions.x > 0 { LenCountsProduced(steps, grid.dimensions.x); }
      }
      CursorLen(index, grid.dimensions.x)
    }

    /** The intended `len`: the number of pairs `next` will still produce. */
    function Remaining(): (r: nat)
      reads this, grid
      requires Valid() && grid.Valid()
      ensures r == if steps <= |grid.data| then |grid.data| - steps else 0
    {
      assert grid.dimensions.x > 0 ==>
        CursorRemaining(index, grid.dimensions) == if steps <= |grid.data| then |grid.data| - steps else 0
      by {
        if grid.dimensions.x > 0 { RemainingCountsLeft(steps, grid.dimensions); }
      }
      CursorRemaining(index, grid.dimensions)
    }
  }

  /**
   * `CellIndices`: the coordinates of a grid in row-major order
   * (`Grid::iter_indices`). It holds a copy of the dimensions, not the grid.
   */
  class CellIndices {
    const dimensions: Coord
    var index: Coord
    /** The number of calls of `next` so far. */
    ghost var steps: nat

    ghost predicate Valid()
      reads this
    {
      index == Position(steps, dimensions.x)
    }

    /** `Grid::iter_indices`: a cursor at `(0, 0)` over the grid's dimensions. */
    constructor (dimensions: Coord)
      ensures this.dimensions == dimensions && index == Coord(0, 0) && steps == 0 && Valid()
    {
      this.dimensions := dimensions;
      index := Coord(0, 0);
      steps := 0;
    }

    /**
     * `next`: the current index while its row is below the height. For a
     * positive width that is every in-range coordinate once, in row-major
     * order; for width 0 it is `(0, 0), (0, 1), ...`, one per row.
     */
    method Next() returns (item: Option<Coord>)
      requires Valid()
      modifies this
      ensures Valid() && steps == old(steps) + 1
      ensures dimensions.x > 0 ==>
        item == if old(steps) < dimensions.x * dimensions.y then Some(Position(old(steps), dimensions.x)) else None
      ensures dimensions.x == 0 ==>
        item == if old(steps) < dimensions.y then Some(Coord(0, old(steps))) else None
    {
      if dimensions.x > 0 {
        PositionInRange(steps, dimensions);
        PositionFlatten(steps, dimensions.x);
      }
      PositionStep(steps, dimensions.x);
      item := if index.y < dimensions.y then Some(index) else None;
      index := Coord(index.x + 1, index.y);
      if index.x >= dimensions.x {
        index := Coord(0, index.y + 1);
      }
      steps := steps + 1;
    }

    /** `len`, as written: the number of calls of `next` made so far, or 0 when the width is 0. */
    function Len(): (r: nat)
      reads this
      requires Valid()
      ensures dimensions.x > 0 ==> r == steps
      ensures dimensions.x == 0 ==> r == 0
    {
      assert dimensions.x > 0 ==> CursorLen(index, dimensions.x) == steps by {
        if dimensions.x > 0 { LenCountsProduced(steps, dimensions.x); }
      }
      CursorLen(index, dimensions.x)
    }

    /**
     * The intended `len`: for a positive width, the number of coordinates
     * `next` will still produce. For width 0 it is 0, though `next` walks
     * down column 0.
     */
    function Remaining(): (r: nat)
      reads this
      requires Valid()
      ensures r == if steps <= dimensions.x * dimensions.y then dimensions.x * dimensions.y - steps else 0
    {
      assert dimensions.x > 0 ==>
        CursorRemaining(index, dimensions) == if steps <= dimensions.x * dimensions.y then dimensions.x * dimensions.y - steps else 0
      by {
        if dimensions.x > 0 { RemainingCountsLeft(steps, dimensions); }
      }
      CursorRemaining(index, dimensions)
    }
  }
}
