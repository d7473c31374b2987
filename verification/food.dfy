/** Food placement. The game draws a random column index in
    [0, GameWidth / SpaceSize - 1] and a random row index in
    [0, GameHeight / SpaceSize - 1] and puts the food on that grid cell. The
    random draw is not modelled: the two indices are supplied by the caller.
    Nothing keeps the food off the snake. */
module Food {
  import opened Board

  /** The largest column index the food can be given (32 on a 1000-pixel field). */
  const MaxColumn: int := GameWidth / SpaceSize - 1
  /** The largest row index the food can be given (25 on an 800-pixel field). */
  const MaxRow: int := GameHeight / SpaceSize - 1

  /** The outcome of the two random draws for one food placement. */
  datatype FoodChoice = FoodChoice(column: int, row: int) {
    /** Both indices lie in the ranges the random draw can produce. */
    predicate Valid() {
      0 <= column <= MaxColumn && 0 <= row <= MaxRow
    }
  }

  /** The cells food can occupy: grid-aligned, x at most MaxColumn cells and
      y at most MaxRow cells from the origin. */
  predicate IsFoodCell(c: Cell) {
    Aligned(c) && 0 <= c.x <= MaxColumn * SpaceSize && 0 <= c.y <= MaxRow * SpaceSize
  }

  /** Places food for a given pair of draws. The result is a food cell, lies
      inside the walls, and its column and row are the drawn indices. */
  function PlaceFood(choice: FoodChoice): (r: Cell)
    requires choice.Valid()
    ensures IsFoodCell(r)
    ensures InBounds(r)
    ensures r.x / SpaceSize == choice.column && r.y / SpaceSize == choice.row
  {
    Cell(choice.column * SpaceSize, choice.row * SpaceSize)
  }

  /** The draws that put food on cell `c`. */
  function ChoiceFor(c: Cell): (r: FoodChoice)
    requires IsFoodCell(c)
    ensures r.Valid()
    ensures PlaceFood(r) == c
  {
    FoodChoice(c.x / SpaceSize, c.y / SpaceSize)
  }

  /** Different draws give different cells, so every food cell has exactly
      one pair of draws. */
  lemma PlaceFoodInjective(a: FoodChoice, b: FoodChoice)
    requires a.Valid() && b.Valid()
    ensures PlaceFood(a) == PlaceFood(b) ==> a == b
  {
  }

  /** Every food cell is inside the walls. */
  lemma FoodCellInBounds(c: Cell)
    requires IsFoodCell(c)
    ensures InBounds(c)
  {
  }

  /** The food range stops one cell short of the walls' range: the last
      column (x = 990) and last row (y = 780) are legal for the snake's head
      but can never hold food. */
  lemma LastColumnAndRowHoldNoFood(x: int, y: int)
    ensures InBounds(Cell(990, 780)) && Aligned(Cell(990, 780))
    ensures !IsFoodCell(Cell(990, y)) && !IsFoodCell(Cell(x, 780))
  {
  }
}
