/** The logical input events the engine and the game query; letters are named by their character. */
module Events {
  datatype EventType =
    | Left | Right | Up | Down | Fire | Escape | Add | Subtract
    | Letter(c: char)

  /** The letter keys the game uses: S toggles sound, G toggles the ghost shape. */
  const S: EventType := Letter('S')
  const G: EventType := Letter('G')
}
