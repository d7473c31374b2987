/** The snake's heading and the key-press rule that changes it. Key presses
    arrive as direction names ("up", "down", "left", "right"); any other
    name is ignored. */
module Heading {
  import opened Options

  datatype Direction = Up | Down | Left | Right

  /** The direction that would turn the snake straight back on itself. */
  function Opposite(d: Direction): (r: Direction)
    ensures r != d
  {
    match d
    case Up => Down
    case Down => Up
    case Left => Right
    case Right => Left
  }

  /** Turning round twice restores the heading. */
  lemma OppositeInvolution(d: Direction)
    ensures Opposite(Opposite(d)) == d
  {
  }

  /** The name under which a key press requests direction `d`. */
  function Name(d: Direction): string
  {
    match d
    case Up => "up"
    case Down => "down"
    case Left => "left"
    case Right => "right"
  }

  /** The direction a request names, if it names one at all. */
  function Parse(s: string): (r: Option<Direction>)
    ensures r.Some? ==> Name(r.value) == s
  {
    if s == "up" then Some(Up)
    else if s == "down" then Some(Down)
    else if s == "left" then Some(Left)
    else if s == "right" then Some(Right)
    else None
  }

  /** Every direction's name parses back to that direction. */
  lemma ParseName(d: Direction)
    ensures Parse(Name(d)) == Some(d)
  {
  }

  /** Distinct directions have distinct names. */
  lemma NameInjective(d: Direction, e: Direction)
    ensures Name(d) == Name(e) ==> d == e
  {
    ParseName(d);
    ParseName(e);
  }

  /** Applies one key press to the current heading `cur`. A request is taken
      unless it names the direct reverse of `cur`; a reversal request, or a
      name that is not a direction, leaves the heading as it was. The
      branches test the four names in the order left, right, up, down. */
  function ChangeDirection(cur: Direction, request: string): (r: Direction)
    ensures r != Opposite(cur)
    ensures Parse(request).Some? && Parse(request).value != Opposite(cur) ==> r == Parse(request).value
    ensures Parse(request).None? || Parse(request).value == Opposite(cur) ==> r == cur
  {
    if request == "left" && cur != Right then Left
    else if request == "right" && cur != Left then Right
    else if request == "up" && cur != Down then Up
    else if request == "down" && cur != Up then Down
    else cur
  }

  /** A single key press changes the heading exactly when it names a
      direction that is neither the current heading nor its reverse. */
  lemma ChangeDirectionChangesIff(cur: Direction, request: string)
    ensures ChangeDirection(cur, request) != cur <==>
              exists d :: Name(d) == request && d != cur && d != Opposite(cur)
  {
  }

  /** Pressing the same key twice has the effect of pressing it once. */
  lemma RepeatIsIdempotent(cur: Direction, request: string)
    ensures ChangeDirection(ChangeDirection(cur, request), request) == ChangeDirection(cur, request)
  {
  }
}
