/** A playing card: four push capabilities and its owner. Cards are never
    changed by the rules, so they are values; `id` stands for the identity of
    the card object, which the AI's draw probabilities compare. */
module CardScript {
  import opened Directions

  datatype Card = Card(
    id: nat,
    canPushLeft: bool,
    canPushRight: bool,
    canPushUp: bool,
    canPushDown: bool,
    isPlayerCard: bool)

  /** The capability a card needs to be PLAYED pushing in `dir`; placing
      without a push needs none. */
  predicate HasPush(card: Card, dir: Direction)
  {
    match dir
    case Up => card.canPushUp
    case Down => card.canPushDown
    case Left => card.canPushLeft
    case Right => card.canPushRight
    case NoPush => true
  }

  /** Whether a card already on the board gives way to a push coming in direction `dir`. */
  predicate CanPushThisWay(card: Card, dir: Direction)
  {
    (dir == Up && !card.canPushDown) ||
    (dir == Left && !card.canPushRight) ||
    (dir == Right && !card.canPushLeft) ||
    (dir == Down && !card.canPushUp)
  }

  /** A resident card gives way to a push in `dir` iff it lacks the capability
      pointing back at the pusher; nothing gives way to NoPush. */
  lemma CanPushThisWayIffLacksOpposite(card: Card, dir: Direction)
    ensures CanPushThisWay(card, dir) <==> !HasPush(card, GetOpposingDirections(dir))
    ensures !CanPushThisWay(card, NoPush)
  {
  }

  /** A card with all four capabilities is never pushed; one with none gives
      way to every push direction. */
  lemma CapabilityExtremes(card: Card, dir: Direction)
    ensures card.canPushLeft && card.canPushRight && card.canPushUp && card.canPushDown
            ==> !CanPushThisWay(card, dir)
    ensures !card.canPushLeft && !card.canPushRight && !card.canPushUp && !card.canPushDown
            ==> (CanPushThisWay(card, dir) <==> dir != NoPush)
  {
  }
}
