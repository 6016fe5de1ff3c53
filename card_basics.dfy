/** Identifiers and small value types shared by every card variant and by the game. */
module CardBasics {

  datatype CardId = CardId(value: string)

  datatype SpellCardId = SpellCardId(value: string)

  datatype UserId = UserId(value: string)

  datatype Element = Element(name: string)

  /** An effect attached to a combat card. Its hook bodies are not part of this model. */
  datatype Effect = Effect(name: string)

  /** Display metadata every card carries: its name and the names of its race, class and faction. */
  datatype CardInfo = CardInfo(name: string, race: string, cardClass: string, fraction: string)

  /** The metadata of a card built without any (the base card's parameterless constructor). */
  const NoInfo := CardInfo("", "", "", "")

  /** A rolled dice face: either an element or a plain face. */
  datatype DiceOutcome = ElementFace(element: Element) | PlainFace(face: string)
  {
    predicate IsElement() { ElementFace? }

    function Value(): string
    {
      match this
      case ElementFace(e) => e.name
      case PlainFace(f) => f
    }
  }

  datatype MoveType = Attack | Skill

  /**
   * One resolution record: damage, type and the gate flags effects may flip.
   * A new Move has every gate enabled.
   */
  datatype Move = Move(
    damage: int,
    moveType: MoveType,
    moveEnabled: bool,
    attackEnabled: bool,
    skillsEnabled: bool,
    itemsEnabled: bool,
    effectsEnabled: bool)

  function NewMove(damage: int, moveType: MoveType): (m: Move)
    ensures m.damage == damage && m.moveType == moveType
    ensures m.moveEnabled && m.attackEnabled && m.skillsEnabled && m.itemsEnabled && m.effectsEnabled
  {
    Move(damage, moveType, true, true, true, true, true)
  }
}
