/** An optional value: a grid cell or a hand slot that may hold no card
    (the `null` of the game's object references). */
module Optional {
  datatype Option<+T> = None | Some(value: T)
}
