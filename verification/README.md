# Snake game turn logic, in Dafny

This project models the game logic of a small tkinter snake game (`main.py`).
A snake moves on a 1000 by 800 pixel field split into 30-pixel cells. Each
turn its head advances one cell in the current heading. It grows by one part
when the head lands on the food, and the game ends when the head leaves the
field or lands on another part of the body. Arrow keys change the heading,
except that a key naming the direct reverse of the current heading is
ignored.

Modules (one per file):

- `Options` (`options.dfy`): the `Option` datatype.
- `Board` (`board.dfy`): the field and cell constants, `Cell`, and the wall and alignment tests.
- `Heading` (`heading.dfy`): `Direction`, the names key presses use, and the anti-reversal rule `ChangeDirection`.
- `SnakeBody` (`snake_body.dfy`): the initial body, the head step `NextHead`, the grow-or-shift update `Advance`, and the collision test.
- `Food` (`food.dfy`): food placement from two drawn indices.
- `Turn` (`turn.dfy`): the game state `Game`, one turn `Step`, a key press `Press`, the state invariant `Inv`, and runs over event sequences.
- `Scenarios` (`scenarios.dfy`): concrete runs from the starting position.

The game state is a record holding the body (head first), the heading, the
score, the food cell and the phase (`Running` or `GameOver`). A turn is
`Step(g, choice)`. `choice` holds the two indices the random generator
would draw if the snake eats this turn. A key press is `Press(g, name)`.
The timer that repeats turns becomes a sequence of `Tick` and `Key` events
(`Run`). `Step` on a finished game changes nothing, since the source
schedules no more turns after game over.

Behaviour worth knowing, proved in the model:

- Food placement never avoids the snake. Food can land on the body, and a turn can eat and crash at once. The point is still scored, because the score is updated before the collision test (`Scenarios.EatAndCrashOnOneTurn`).
- The anti-reversal rule holds for each key press, not for each turn. Pressing left and then up between two turns reverses a downward heading. The snake then runs into itself (`Scenarios.TwoPressesReverseAndCrash`).
- Food is drawn from columns 0..32 and rows 0..25, so it lies at x ≤ 960 and y ≤ 750. The wall test accepts a head up to x = 990 and y = 780. The last column and row are open to the snake but never hold food (`Food.LastColumnAndRowHoldNoFood`).
- The collision test would report the freshly made body, with its three parts on the origin, as a collision. It is never asked: the first turn moves the head before the test runs (`Scenarios.InitialBodyWouldCollide`).
- `int(GAME_WIDTH / SPACE_SIZE)` truncates a positive quotient, so it equals Dafny's integer division for these constants.

## Model

| member | source | states |
|---|---|---|
| Heading.ChangeDirection | main.py:127-139 | the new heading is never the reverse of the old one; a request naming a non-reverse direction is taken; a reversal or an unknown name leaves the heading unchanged |
| Heading.ChangeDirectionChangesIff | main.py:132-139 | a key press changes the heading exactly when it names a direction that is neither the current one nor its reverse |
| Heading.RepeatIsIdempotent | main.py:132-139 | pressing the same key twice in a row has the effect of pressing it once |
| Heading.Opposite | main.py:130-139 | the reverse of a direction is a different direction |
| Heading.OppositeInvolution | main.py:132-139 | the reverse of the reverse is the original direction |
| Heading.Parse | main.py:213-216 | a name that parses to a direction is that direction's key name |
| Heading.ParseName | main.py:213-216 | each direction's key name parses back to the direction |
| Heading.NameInjective | main.py:213-216 | the four key names are distinct |
| Board.HitsWallIffOutOfBounds | main.py:146-149 | the wall test holds exactly when the head is outside [0, 1000) × [0, 800) |
| SnakeBody.InitialBody | main.py:31-32 | the snake starts with three parts, all on (0, 0) |
| SnakeBody.NextHead | main.py:71-81 | the new head differs from the old head by 30 along one axis only, in the direction's sense, and stays grid-aligned |
| SnakeBody.StepBackReturns | main.py:74-81 | a step followed by a step in the reverse direction returns to the start cell |
| SnakeBody.Advance | main.py:84-110 | the new body has the new head first and every other part shifted back by one; its length grows by one on a growing turn and is unchanged otherwise |
| SnakeBody.CheckCollision | main.py:142-158 | the scan reports a collision exactly when the head is outside the walls or equals a part at index 1 or later |
| SnakeBody.CollidesIffScan | main.py:142-158 | the collision predicate used by a turn agrees with the scan's index-based test |
| SnakeBody.ReversalCollides | main.py:130-139 | a snake of three or more parts that steps back against its last move lands on its own body, the turn a single key press cannot cause |
| SnakeBody.ChasingTheTailIsSafe | main.py:107-119 | when no two parts share a cell, on a non-growing turn a head moving onto the cell the tail is leaving is not a collision, since the tail is dropped before the test |
| Food.PlaceFood | main.py:48-57 | placed food is grid-aligned, within columns 0..32 and rows 0..25, inside the walls, and its column and row are the drawn indices |
| Food.ChoiceFor | main.py:48-54 | every cell in the food range is produced by some valid pair of draws |
| Food.PlaceFoodInjective | main.py:53-54 | different draws give different food cells |
| Food.FoodCellInBounds | main.py:48-57 | every cell food can occupy passes the wall test |
| Food.LastColumnAndRowHoldNoFood | main.py:48-49 | the column x = 990 and row y = 780 are inside the walls but never hold food |
| Turn.Init | main.py:182-223 | the session starts running with score 0, heading down, three parts on the origin and the food on the cell the first draws name, satisfying the invariant |
| Turn.Step | main.py:67-124 | on an eating turn the score rises by one, the body grows by one and the rest of it is the whole old body, and new food is placed; otherwise score and food are unchanged and only the old tail is dropped; the game ends exactly when the new body collides; a finished game is unchanged |
| Turn.Press | main.py:127-139 | a key press changes only the heading, never to the reverse of the current one; a non-reverse direction name is taken, and a reversal or an unknown name leaves the heading unchanged |
| Turn.StepPreservesInv | main.py:67-124 | a turn keeps the body aligned, one part longer than three per point, the food in range and a running head inside the walls |
| Turn.EatingCrashIsSelfCollision | main.py:93-124 | a turn that eats never hits a wall, still scores the point, and if it ends the game the head has hit the body |
| Turn.Apply | main.py:119-139 | an event keeps the invariant, never lowers the score, and cannot restart or change a finished game's body, score or food |
| Turn.Run | main.py:119-124 | over any event sequence the invariant holds, the score never drops, and game over is final with body, score and food frozen |
| Turn.Start | main.py:222-226 | after setup and the immediate first turn the game is running, heading down, with its head on (0, 30) |
| Turn.ScoreCountsGrowth | main.py:93-110 | in every game reached from the start the body length is three plus the score |
| Scenarios.FirstTurnMovesDown | main.py:222-226 | when the food is not on (0, 30), the first turn leaves the body (0, 30), (0, 0), (0, 0) with score 0 |
| Scenarios.FirstTurnCanEat | main.py:93-104 | food drawn on (0, 30) is eaten on the first turn, giving score 1 and four parts |
| Scenarios.UpIgnoredWhileHeadingDown | main.py:136-139 | heading down, the up key is ignored |
| Scenarios.TwoPressesReverseAndCrash | main.py:127-158 | pressing left then up between turns reverses a downward heading, and the next turn ends the game, whether or not either turn eats |
| Scenarios.TailChaseCanCollide | main.py:107-158 | after the first turn the body repeats its tail cell, so a head moving up onto that cell still collides |
| Scenarios.LeftWallEndsGame | main.py:146-147 | turning left in the first column puts the head at x = -30 and ends the game |
| Scenarios.EatAndCrashOnOneTurn | main.py:93-124 | food lying on the tail is eaten, the score rises, and the same turn ends the game |
| Scenarios.InitialBodyWouldCollide | main.py:31-32 | the initial body counts as colliding under the collision test, and food can be drawn onto it |

## Left out

- Drawing: canvas rectangles and ovals, the list of drawn squares, the score label, the game-over text and its centring. They only mirror the modelled state.
- Window creation, centring and the key bindings. Key presses are explicit `Press` calls, or `Key` events in `Run`.
- The timer and the `SPEED` constant. The repeating turn is an explicit `Step` call, or a `Tick` event in `Run`.
- The random generator. Each turn takes the two indices the generator would draw, constrained to the generator's ranges.
- Colour and font constants, which are presentation only.
- A heading other than the four direction names. The source's heading only ever holds one of them, so `next_turn`'s fall-through for an unknown heading is unreachable and not modelled.
