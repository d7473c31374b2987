/** Board geometry of the snake game: the playing field is GameWidth by
    GameHeight pixels, split into square cells SpaceSize pixels wide. A cell is
    named by the pixel coordinates of its top-left corner. */
module Board {

  /** Width of the playing field in pixels. */
  const GameWidth: int := 1000
  /** Height of the playing field in pixels. */
  const GameHeight: int := 800
  /** Side of one grid cell, and the distance the snake travels per turn. */
  const SpaceSize: int := 30
  /** Number of body parts the snake starts with. */
  const BodyParts: nat := 3

  /** A grid position, as the (x, y) pixel coordinates of its top-left corner. */
  datatype Cell = Cell(x: int, y: int)

  /** The cell the snake starts on: the top-left corner of the field. */
  const Origin: Cell := Cell(0, 0)

  /** A cell whose coordinates are both multiples of the cell size. */
  predicate Aligned(c: Cell) {
    c.x % SpaceSize == 0 && c.y % SpaceSize == 0
  }

  /** The head position the wall test accepts: x in [0, GameWidth) and y in [0, GameHeight). */
  predicate InBounds(c: Cell) {
    0 <= c.x < GameWidth && 0 <= c.y < GameHeight
  }

  /** True when a head at `c` has run into a wall. */
  predicate HitsWall(c: Cell) {
    c.x < 0 || c.x >= GameWidth || c.y < 0 || c.y >= GameHeight
  }

  /** The wall test and the bounds test are complements of each other. */
  lemma HitsWallIffOutOfBounds(c: Cell)
    ensures HitsWall(c) <==> !InBounds(c)
  {
  }
}
