/**
 The value types of the grid world: fixed-width integers, positions,
 the eight compass directions, the grid descriptor and food items,
 together with the pure operations on them (direction sampling,
 moving a position by one cell, the bounds test and the random
 position draw).
 */
module GridWorld {

  /** Rust's `u32`. */
  type u32 = n: int | 0 <= n < 0x1_0000_0000

  /** Rust's `i32`. */
  type i32 = n: int | -0x8000_0000 <= n < 0x8000_0000

  const INITIAL_FOOD_COUNT: u32 := 10_000
  const FOOD_ENERGY: u32 := 100

  /** The cast `n as i32` of a `u32`: the two's-complement reading of the same 32 bits. */
  function AsI32(n: u32): (r: i32)
    ensures r % 0x1_0000_0000 == n
    ensures n < 0x8000_0000 <==> r >= 0
  {
    if n < 0x8000_0000 then n else n - 0x1_0000_0000
  }

  datatype Position = Position(x: i32, y: i32)

  datatype Direction = Up | Down | Left | Right | UpLeft | UpRight | DownLeft | DownRight

  /** Row and column counts; fixed for the whole run. */
  datatype Grid = Grid(rows: u32, cols: u32)

  datatype Food = Food(energy: u32)

  function NewFood(): (f: Food)
    ensures f.energy == FOOD_ENERGY
  {
    Food(FOOD_ENERGY)
  }

  /** The discriminant of a direction, in declaration order (`d as u8`). */
  function Discriminant(d: Direction): (k: nat)
    ensures k <= 7
  {
    match d
    case Up => 0
    case Down => 1
    case Left => 2
    case Right => 3
    case UpLeft => 4
    case UpRight => 5
    case DownLeft => 6
    case DownRight => 7
  }

  /**
   The mapping from a uniformly drawn integer to a direction. The draw
   `n` is an input here; the source draws it from `0..=7`, and every value
   outside `0..6` lands on the catch-all arm.
   */
  function Sample(n: i32): (d: Direction)
    ensures 0 <= n <= 7 ==> Discriminant(d) == n
    ensures (n < 0 || n > 7) ==> d == DownRight
  {
    match n
    case 0 => Up
    case 1 => Down
    case 2 => Left
    case 3 => Right
    case 4 => UpLeft
    case 5 => UpRight
    case 6 => DownLeft
    case _ => DownRight
  }

  /** Every direction is the sample of exactly one draw in `0..=7`. */
  lemma SampleCoversAll(d: Direction)
    ensures 0 <= Discriminant(d) <= 7 && Sample(Discriminant(d)) == d
    ensures forall n: i32 :: 0 <= n <= 7 && Sample(n) == d ==> n == Discriminant(d)
  {
  }

  /** Neither coordinate sits at an end of the `i32` range, so a unit step cannot overflow. */
  predicate Interior(p: Position) {
    -0x8000_0000 < p.x < 0x7fff_ffff && -0x8000_0000 < p.y < 0x7fff_ffff
  }

  /**
   The neighbouring cell in direction `dir`. The y axis grows downwards:
   the three "up" directions decrease y, the three "left" ones decrease x.
   */
  function Increment(p: Position, dir: Direction): (r: Position)
    requires Interior(p)
    ensures -1 <= r.x - p.x <= 1 && -1 <= r.y - p.y <= 1 && r != p
    ensures r.y == p.y - 1 <==> dir.Up? || dir.UpLeft? || dir.UpRight?
    ensures r.y == p.y + 1 <==> dir.Down? || dir.DownLeft? || dir.DownRight?
    ensures r.x == p.x - 1 <==> dir.Left? || dir.UpLeft? || dir.DownLeft?
    ensures r.x == p.x + 1 <==> dir.Right? || dir.UpRight? || dir.DownRight?
  {
    match dir
    case Up => Position(p.x, p.y - 1)
    case Down => Position(p.x, p.y + 1)
    case Left => Position(p.x - 1, p.y)
    case Right => Position(p.x + 1, p.y)
    case UpLeft => Position(p.x - 1, p.y - 1)
    case UpRight => Position(p.x + 1, p.y - 1)
    case DownLeft => Position(p.x - 1, p.y + 1)
    case DownRight => Position(p.x + 1, p.y + 1)
  }

  /** The eight directions give eight distinct neighbours. */
  lemma IncrementInjective(p: Position, d1: Direction, d2: Direction)
    requires Interior(p)
    ensures Increment(p, d1) == Increment(p, d2) ==> d1 == d2
  {
  }

  /** Every unit offset other than (0,0) is reached by some direction. */
  lemma IncrementCoversNeighbours(p: Position, dx: int, dy: int)
    requires Interior(p)
    requires -1 <= dx <= 1 && -1 <= dy <= 1 && (dx, dy) != (0, 0)
    ensures exists dir :: Increment(p, dir) == Position(p.x + dx, p.y + dy)
  {
    var dir :=
      if dy == -1 then (if dx == -1 then UpLeft else if dx == 0 then Up else UpRight)
      else if dy == 0 then (if dx == -1 then Left else Right)
      else (if dx == -1 then DownLeft else if dx == 0 then Down else DownRight);
    assert Increment(p, dir) == Position(p.x + dx, p.y + dy);
  }

  /** Both dimensions survive the cast to `i32` unchanged. */
  predicate FitsI32(g: Grid) {
    g.rows < 0x8000_0000 && g.cols < 0x8000_0000
  }

  /**
   The bounds test, with both dimensions cast to `i32` as the source does.
   It never admits a cell outside the grid, and for a grid whose
   dimensions fit in `i32` it admits every cell inside it.
   */
  predicate InBounds(g: Grid, p: Position)
    ensures InBounds(g, p) ==> 0 <= p.x < g.cols && 0 <= p.y < g.rows
    ensures FitsI32(g) && 0 <= p.x < g.cols && 0 <= p.y < g.rows ==> InBounds(g, p)
  {
    var rows := AsI32(g.rows);
    var cols := AsI32(g.cols);
    p.x >= 0 && p.y >= 0 && p.x < cols && p.y < rows
  }

  /** A cell inside the grid is never at an end of the `i32` range. */
  lemma InBoundsInterior(g: Grid, p: Position)
    requires InBounds(g, p)
    ensures Interior(p)
  {
  }

  /** The two raw samples `x` in `0..cols` and `y` in `0..rows` behind one random position. */
  datatype Draw = Draw(x: u32, y: u32)

  /** The random position built from one draw: both samples cast to `i32`. */
  function RandPosition(g: Grid, d: Draw): (p: Position)
    requires d.x < g.cols && d.y < g.rows
    ensures FitsI32(g) ==> p == Position(d.x, d.y) && InBounds(g, p)
  {
    Position(AsI32(d.x), AsI32(d.y))
  }
}
