/** Concrete runs of the game on the 1000 by 800 field with 30-pixel cells,
    starting from three parts on the origin heading down. */
module Scenarios {
  import opened Board
  import opened Heading
  import opened SnakeBody
  import opened Food
  import opened Turn

  /** The first turn moves the head to (0, 30) and, when the food is
      elsewhere, drops one of the two parts left on the origin. */
  lemma FirstTurnMovesDown(first: FoodChoice, second: FoodChoice)
    requires first.Valid() && second.Valid()
    requires PlaceFood(first) != Cell(0, 30)
    ensures Start(first, second).body == [Cell(0, 30), Origin, Origin]
    ensures Start(first, second).score == 0
  {
  }

  /** Food placed on (0, 30) at setup is eaten on the first turn. */
  lemma FirstTurnCanEat(second: FoodChoice)
    requires second.Valid()
    ensures Start(FoodChoice(0, 1), second).score == 1
    ensures Start(FoodChoice(0, 1), second).body == [Cell(0, 30), Origin, Origin, Origin]
  {
  }

  /** Heading down, a request to go up is ignored. */
  lemma UpIgnoredWhileHeadingDown(g: Game)
    requires g.dir == Down
    ensures Press(g, "up").dir == Down
  {
  }

  /** The anti-reversal rule holds per key press, not per turn: pressing left
      and then up between two turns reverses a downward heading, and the
      snake then runs back onto the origin, which its body still covers, so
      the game ends whether or not either turn eats. */
  lemma TwoPressesReverseAndCrash(first: FoodChoice, second: FoodChoice, third: FoodChoice)
    requires first.Valid() && second.Valid() && third.Valid()
    ensures Press(Press(Start(first, second), "left"), "up").dir == Opposite(Start(first, second).dir)
    ensures Step(Press(Press(Start(first, second), "left"), "up"), third).phase == GameOver
  {
  }

  /** Chasing the tail is not always safe: after the first turn the body
      (0, 30), (0, 0), (0, 0) repeats its tail cell, so a head moving up onto
      that cell meets the copy that stays behind and the game ends. */
  lemma TailChaseCanCollide(first: FoodChoice, second: FoodChoice)
    requires first.Valid() && second.Valid()
    requires PlaceFood(first) != Cell(0, 30)
    ensures NextHead(Start(first, second).body[0], Up) == Start(first, second).body[|Start(first, second).body| - 1]
    ensures Collides(Advance(Start(first, second).body, NextHead(Start(first, second).body[0], Up), false))
  {
    FirstTurnMovesDown(first, second);
    var b := Start(first, second).body;
    var r := Advance(b, NextHead(b[0], Up), false);
    assert r == [Origin, Cell(0, 30), Origin];
    assert r[1..][1] == r[0];
  }

  /** Turning left from the first column runs the head to x = -30, into the
      left wall. */
  lemma LeftWallEndsGame(first: FoodChoice, second: FoodChoice, third: FoodChoice)
    requires first.Valid() && second.Valid() && third.Valid()
    ensures Step(Press(Start(first, second), "left"), third).body[0] == Cell(-SpaceSize, SpaceSize)
    ensures Step(Press(Start(first, second), "left"), third).phase == GameOver
  {
  }

  /** Food may be placed on the snake: here it sits on the tail cell (30, 0),
      which the draws (1, 0) produce. The head moves up onto it, the snake
      grows so the tail stays, and the head meets that tail: the point is
      counted and the game ends on the same turn. */
  lemma EatAndCrashOnOneTurn(choice: FoodChoice)
    requires choice.Valid()
    ensures PlaceFood(FoodChoice(1, 0)) == Cell(30, 0)
    ensures Inv(Game([Cell(30, 30), Cell(0, 30), Origin, Cell(30, 0)], Up, 1, Cell(30, 0), Running))
    ensures Step(Game([Cell(30, 30), Cell(0, 30), Origin, Cell(30, 0)], Up, 1, Cell(30, 0), Running), choice).score == 2
    ensures Step(Game([Cell(30, 30), Cell(0, 30), Origin, Cell(30, 0)], Up, 1, Cell(30, 0), Running), choice).phase == GameOver
  {
  }

  /** The collision test would report the freshly made body, whose parts all
      coincide, as colliding; the game never asks, because the first turn
      moves the head off the origin before the test runs. */
  lemma InitialBodyWouldCollide()
    ensures Collides(InitialBody())
    ensures PlaceFood(FoodChoice(0, 0)) in InitialBody()
  {
    var b := InitialBody();
    assert b[1..][0] == b[0];
  }
}
