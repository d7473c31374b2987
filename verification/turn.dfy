/** One game session: the snake's body and heading, the score, the food cell
    and whether the game is still running, and the two ways it changes — a
    timed turn and a key press. Drawing, the timer and the random draws are
    outside the model: a turn is an explicit call, and each turn is given the
    draws to use if the snake eats. */
module Turn {
  import opened Board
  import opened Heading
  import opened SnakeBody
  import opened Food

  datatype Phase = Running | GameOver

  datatype Game = Game(body: seq<Cell>, dir: Direction, score: nat, food: Cell, phase: Phase)

  /** What every reachable game satisfies: the body is grid-aligned and one
      part longer than its starting length per point scored, the food is on a
      food cell, and while the game runs the head is inside the walls. */
  predicate Inv(g: Game) {
    && |g.body| == BodyParts + g.score
    && (forall k :: 0 <= k < |g.body| ==> Aligned(g.body[k]))
    && IsFoodCell(g.food)
    && (g.phase == Running ==> InBounds(g.body[0]))
  }

  /** The session as it is set up, before its first turn: the initial body
      heading down, no score, and food from the first pair of draws. */
  function Init(choice: FoodChoice): (r: Game)
    requires choice.Valid()
    ensures Inv(r)
    ensures r.food == PlaceFood(choice)
    ensures r.phase == Running && r.score == 0 && r.dir == Down
    ensures |r.body| == BodyParts && forall k :: 0 <= k < |r.body| ==> r.body[k] == Origin
  {
    Game(InitialBody(), Down, 0, PlaceFood(choice), Running)
  }

  /** The snake's head lands on the food on the next turn. */
  predicate Eats(g: Game)
    requires |g.body| >= 1
  {
    NextHead(g.body[0], g.dir) == g.food
  }

  /** One turn. The head moves one cell in the current heading and is put in
      front of the body. If it lands on the food the score goes up by one, the
      tail stays and new food is placed from `choice`; otherwise the tail is
      dropped. Only then is the collision test run, which ends the game or
      lets it continue. A finished game no longer takes turns. */
  function Step(g: Game, choice: FoodChoice): (r: Game)
    requires |g.body| >= 1
    requires choice.Valid()
    ensures |r.body| >= 1
    ensures g.phase == GameOver ==> r == g
    ensures g.phase == Running ==> r.dir == g.dir && r.body[0] == NextHead(g.body[0], g.dir)
    ensures g.phase == Running && Eats(g) ==>
              r.score == g.score + 1 && |r.body| == |g.body| + 1 && r.body[1..] == g.body &&
              r.food == PlaceFood(choice)
    ensures g.phase == Running && !Eats(g) ==>
              r.score == g.score && |r.body| == |g.body| && r.body[1..] == g.body[..|g.body| - 1] &&
              r.food == g.food
    ensures g.phase == Running ==> (r.phase == GameOver <==> Collides(r.body))
  {
    if g.phase == GameOver then g
    else
      var head := NextHead(g.body[0], g.dir);
      var ate := head == g.food;
      var body := Advance(g.body, head, ate);
      var score := if ate then g.score + 1 else g.score;
      var food := if ate then PlaceFood(choice) else g.food;
      var phase := if Collides(body) then GameOver else Running;
      Game(body, g.dir, score, food, phase)
  }

  /** A key press: the heading changes by the anti-reversal rule and nothing
      else does. The rule applies whether or not the game is still running. */
  function Press(g: Game, request: string): (r: Game)
    ensures r.body == g.body && r.score == g.score && r.food == g.food && r.phase == g.phase
    ensures r.dir != Opposite(g.dir)
    ensures Parse(request).Some? && Parse(request).value != Opposite(g.dir) ==> r.dir == Parse(request).value
    ensures Parse(request).None? || Parse(request).value == Opposite(g.dir) ==> r.dir == g.dir
  {
    g.(dir := ChangeDirection(g.dir, request))
  }

  /** A turn keeps the invariant. */
  lemma StepPreservesInv(g: Game, choice: FoodChoice)
    requires Inv(g)
    requires choice.Valid()
    ensures Inv(Step(g, choice))
  {
  }

  /** A turn on which the snake eats never ends at a wall: food is always
      inside the walls, so eating and crashing at once means the head ran
      into the snake's own body. The point is still scored. */
  lemma EatingCrashIsSelfCollision(g: Game, choice: FoodChoice)
    requires Inv(g)
    requires choice.Valid()
    requires g.phase == Running && Eats(g)
    ensures !HitsWall(Step(g, choice).body[0])
    ensures Step(g, choice).phase == GameOver ==> Step(g, choice).body[0] in g.body
    ensures Step(g, choice).score == g.score + 1
  {
  }

  /** The inputs the game reacts to: a timer tick carrying the draws to use if
      the snake eats, or a key press naming a direction. */
  datatype Event = Tick(choice: FoodChoice) | Key(request: string)

  /** Every tick carries draws the random generator could have produced. */
  predicate ValidEvents(es: seq<Event>) {
    forall k :: 0 <= k < |es| ==> es[k].Tick? ==> es[k].choice.Valid()
  }

  /** Reacts to one event. */
  function Apply(g: Game, e: Event): (r: Game)
    requires Inv(g)
    requires e.Tick? ==> e.choice.Valid()
    ensures Inv(r)
    ensures r.score >= g.score
    ensures r.phase == Running ==> g.phase == Running
    ensures g.phase == GameOver ==> r.body == g.body && r.score == g.score && r.food == g.food
  {
    match e
    case Tick(choice) => StepPreservesInv(g, choice); Step(g, choice)
    case Key(request) => Press(g, request)
  }

  /** Reacts to a sequence of events in order. Every state on the way keeps
      the invariant, the score never drops, and once over the game stays over
      with its body, score and food frozen. */
  function Run(g: Game, es: seq<Event>): (r: Game)
    requires Inv(g)
    requires ValidEvents(es)
    ensures Inv(r)
    ensures r.score >= g.score
    ensures r.phase == Running ==> g.phase == Running
    ensures g.phase == GameOver ==> r.phase == GameOver && r.body == g.body && r.score == g.score && r.food == g.food
    decreases |es|
  {
    if es == [] then g
    else
      assert es[0].Tick? ==> es[0].choice.Valid();
      Run(Apply(g, es[0]), es[1..])
  }

  /** The state right after the session starts: set up with the first draws,
      then the first turn, which runs at once. */
  function Start(first: FoodChoice, second: FoodChoice): (r: Game)
    requires first.Valid() && second.Valid()
    ensures Inv(r)
    ensures r.phase == Running
    ensures r.dir == Down && r.body[0] == Cell(0, SpaceSize)
  {
    StepPreservesInv(Init(first), second);
    Step(Init(first), second)
  }

  /** Every game reached from the start through any events keeps the
      invariant, so its score is exactly how far the body has grown. */
  lemma ScoreCountsGrowth(first: FoodChoice, second: FoodChoice, es: seq<Event>)
    requires first.Valid() && second.Valid()
    requires ValidEvents(es)
    ensures |Run(Start(first, second), es).body| == BodyParts + Run(Start(first, second), es).score
  {
  }
}
