/** The snake's body, an ordered sequence of cells with the head first and the
    tail last, together with the movement and collision rules that act on it. */
module SnakeBody {
  import opened Board
  import opened Heading

  /** The body the snake is created with: BodyParts copies of the origin. */
  function InitialBody(): (r: seq<Cell>)
    ensures |r| == BodyParts
    ensures forall k :: 0 <= k < |r| ==> r[k] == Origin
  {
    seq(BodyParts, _ => Origin)
  }

  /** The cell one step from `head` in direction `d`: up and down move the
      y coordinate, left and right move x, always by SpaceSize. */
  function NextHead(head: Cell, d: Direction): (r: Cell)
    ensures (r.x < head.x <==> d == Left) && (r.x > head.x <==> d == Right)
    ensures (r.y < head.y <==> d == Up) && (r.y > head.y <==> d == Down)
    ensures r.x == head.x || r.y == head.y
    ensures r.x - head.x == SpaceSize || head.x - r.x == SpaceSize ||
            r.y - head.y == SpaceSize || head.y - r.y == SpaceSize
    ensures Aligned(head) ==> Aligned(r)
  {
    match d
    case Up => Cell(head.x, head.y - SpaceSize)
    case Down => Cell(head.x, head.y + SpaceSize)
    case Left => Cell(head.x - SpaceSize, head.y)
    case Right => Cell(head.x + SpaceSize, head.y)
  }

  /** Stepping in a direction and then in its reverse returns to the start. */
  lemma StepBackReturns(head: Cell, d: Direction)
    ensures NextHead(NextHead(head, d), Opposite(d)) == head
  {
  }

  /** Moves the body onto `head`: the new head is put in front, and the old
      tail is dropped unless the snake grew this turn. */
  function Advance(body: seq<Cell>, head: Cell, grew: bool): (r: seq<Cell>)
    requires |body| >= 1
    ensures |r| == if grew then |body| + 1 else |body|
    ensures r[0] == head
    ensures forall k :: 1 <= k < |r| ==> r[k] == body[k - 1]
  {
    if grew then [head] + body else [head] + body[..|body| - 1]
  }

  /** The head has run into a wall or into another part of the body. */
  predicate Collides(body: seq<Cell>)
    requires |body| >= 1
  {
    HitsWall(body[0]) || body[0] in body[1..]
  }

  /** The collision test as the game runs it: the two wall tests first, then
      a scan of the body from index 1 for a part on the head's cell. */
  method CheckCollision(body: seq<Cell>) returns (hit: bool)
    requires |body| >= 1
    ensures hit <==> HitsWall(body[0]) || exists k :: 1 <= k < |body| && body[k] == body[0]
    ensures hit <==> Collides(body)
  {
    CollidesIffScan(body);
    var head := body[0];
    if head.x < 0 || head.x >= GameWidth {
      return true;
    }
    if head.y < 0 || head.y >= GameHeight {
      return true;
    }
    var k := 1;
    while k < |body|
      invariant 1 <= k <= |body|
      invariant forall m :: 1 <= m < k ==> body[m] != head
    {
      if body[k] == head {
        return true;
      }
      k := k + 1;
    }
    return false;
  }

  /** The scan agrees with the collision predicate the turn logic uses. */
  lemma CollidesIffScan(body: seq<Cell>)
    requires |body| >= 1
    ensures Collides(body) <==> HitsWall(body[0]) || exists k :: 1 <= k < |body| && body[k] == body[0]
  {
  }

  /** Why reversals are refused: a snake of three or more parts that last
      moved in direction `d` and now steps in the opposite direction lands on
      the part behind its head, whether or not it grows. A single key press
      cannot cause this turn; two presses between turns can. */
  lemma ReversalCollides(body: seq<Cell>, d: Direction, grew: bool)
    requires |body| >= 3
    requires body[0] == NextHead(body[1], d)
    ensures Collides(Advance(body, NextHead(body[0], Opposite(d)), grew))
  {
  }

  /** When no two parts share a cell, moving onto the cell the tail is
      leaving is not a collision on a turn that does not grow: the tail is
      dropped before the test. A body that repeats its tail cell, as the
      early bodies do, still collides there (`Scenarios.TailChaseCanCollide`). */
  lemma ChasingTheTailIsSafe(body: seq<Cell>, d: Direction)
    requires |body| >= 2
    requires NextHead(body[0], d) == body[|body| - 1]
    requires InBounds(body[|body| - 1])
    requires forall i, j :: 0 <= i < j < |body| ==> body[i] != body[j]
    ensures !Collides(Advance(body, NextHead(body[0], d), false))
  {
  }
}
