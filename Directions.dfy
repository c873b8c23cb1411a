/** The push directions of the game and the two static direction helpers of the
    game manager (`GetOpposingDirections`, `AreOpposingDirections`). */
module Directions {

  /** `Directions` in the game: four push directions and "place without pushing". */
  datatype Direction = Up | Down | Left | Right | NoPush

  /** The direction pointing the other way; NoPush has no opposite and maps to itself. */
  function GetOpposingDirections(dir: Direction): (r: Direction)
    ensures (r == NoPush) <==> (dir == NoPush)
    ensures dir != NoPush ==> r != dir
  {
    match dir
    case Up => Down
    case Left => Right
    case Down => Up
    case Right => Left
    case NoPush => NoPush
  }

  /** Holds exactly for the pairs UP/DOWN, DOWN/UP, LEFT/RIGHT and RIGHT/LEFT. */
  predicate AreOpposingDirections(first: Direction, second: Direction)
  {
    (first == Up && second == Down) ||
    (first == Right && second == Left) ||
    (first == Down && second == Up) ||
    (first == Left && second == Right)
  }

  /** Opposing twice gives the direction back. */
  lemma OpposingIsInvolution(dir: Direction)
    ensures GetOpposingDirections(GetOpposingDirections(dir)) == dir
  {
  }

  /** The two helpers agree: a pair opposes iff the first is a push and the second is its opposite. */
  lemma AreOpposingMatchesGetOpposing(first: Direction, second: Direction)
    ensures AreOpposingDirections(first, second) <==>
            (first != NoPush && second == GetOpposingDirections(first))
  {
  }

  /** Opposition is symmetric and no direction opposes itself. */
  lemma AreOpposingSymmetricIrreflexive(first: Direction, second: Direction)
    ensures AreOpposingDirections(first, second) <==> AreOpposingDirections(second, first)
    ensures !AreOpposingDirections(first, first)
  {
  }
}
