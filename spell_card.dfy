/**
 * Spell cards: single-use combat cards whose damage is a fixed number rather than a
 * function of their statistics.
 */
module SpellCards {
  import opened CardBasics
  import Statistics

  datatype SpellCard = SpellCard(
    id: SpellCardId,
    info: CardInfo,
    statistics: Statistics.Stats,
    effects: seq<Effect>,
    requiredElements: seq<Element>,
    damage: int)

  /** The constructor without metadata; `damage` defaults to 0. */
  function NewSpellCard(id: SpellCardId, effects: seq<Effect>, requiredElements: seq<Element>,
                        damage: int := 0): (s: SpellCard)
    ensures s.id == id && s.effects == effects && s.requiredElements == requiredElements
    ensures s.damage == damage
    ensures s.info == NoInfo && s.statistics == Statistics.Zero()
  {
    SpellCard(id, NoInfo, Statistics.Zero(), effects, requiredElements, damage)
  }

  /** The constructor with name, race, class and faction; `damage` defaults to 0. */
  function NewNamedSpellCard(id: SpellCardId, name: string, race: string, cardClass: string,
                             fraction: string, effects: seq<Effect>,
                             requiredElements: seq<Element>, damage: int := 0): (s: SpellCard)
    ensures s.id == id && s.effects == effects && s.requiredElements == requiredElements
    ensures s.damage == damage
    ensures s.info == CardInfo(name, race, cardClass, fraction) && s.statistics == Statistics.Zero()
  {
    SpellCard(id, CardInfo(name, race, cardClass, fraction), Statistics.Zero(), effects,
              requiredElements, damage)
  }

  predicate DoesDamage(s: SpellCard)
  {
    s.damage > 0
  }

  /** A spell's skills all behave alike: the skill index is ignored. */
  predicate DoesPowerDamage(s: SpellCard, skillIndex: int)
  {
    DoesDamage(s)
  }

  function GetEffects(s: SpellCard, skillIndex: int): seq<Effect>
  {
    s.effects
  }

  /** The card id seen through the generic card interface. */
  function CardIdOf(s: SpellCard): CardId
  {
    CardId(s.id.value)
  }

  /** The card id seen through the combat card interface. */
  function CombatCardIdOf(s: SpellCard): CardId
  {
    CardId(s.id.value)
  }

  function ToString(s: SpellCard): string
  {
    s.id.value
  }

  /** Every skill index gives the same answer, and that answer is DoesDamage. */
  lemma PowerDamageIgnoresSkillIndex(s: SpellCard, i: int, j: int)
    ensures DoesPowerDamage(s, i) == DoesPowerDamage(s, j) == DoesDamage(s)
  {
  }

  /** Every skill index yields all stored effects, in stored order. */
  lemma EffectsIgnoreSkillIndex(s: SpellCard, i: int, j: int)
    ensures GetEffects(s, i) == GetEffects(s, j) == s.effects
  {
  }

  /** A spell built with the default damage never deals power damage. */
  lemma DefaultDamageSpellIsHarmless(id: SpellCardId, effects: seq<Effect>,
                                     requiredElements: seq<Element>, i: int)
    ensures !DoesPowerDamage(NewSpellCard(id, effects, requiredElements), i)
  {
  }

  /** Both id projections agree with each other and with ToString. */
  lemma IdProjectionsAgree(s: SpellCard)
    ensures CardIdOf(s) == CombatCardIdOf(s)
    ensures CardIdOf(s).value == s.id.value == ToString(s)
  {
  }
}
