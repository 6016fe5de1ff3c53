/**
 * The card model: a closed union of the card variants and the capability sets the game
 * checks. Hero and unit cards fight with their statistics, carry items and have skills;
 * spell cards fight too; skill, item and other cards never enter combat.
 */
module Cards {
  import opened Wrappers
  import opened CardBasics
  import Statistics
  import SpellCards

  /** An item card attached to a hero or unit: its id and the statistics it lends. */
  datatype Equipment = Equipment(id: CardId, stats: Statistics.Stats)

  /** One skill of a hero or unit: whether it deals power damage and the effects it applies. */
  datatype SkillInfo = SkillInfo(powerDamage: bool, effects: seq<Effect>)

  /** The combat part of a hero or unit card. */
  datatype Fighter = Fighter(
    stats: Statistics.Stats,
    effects: seq<Effect>,
    items: seq<Equipment>,
    skills: seq<SkillInfo>)

  datatype Card =
    | Hero(cardId: CardId, info: CardInfo, fighter: Fighter)
    | Unit(cardId: CardId, info: CardInfo, fighter: Fighter)
    | Skill(cardId: CardId, info: CardInfo)
    | Item(cardId: CardId, info: CardInfo, itemStats: Statistics.Stats)
    | Spell(spell: SpellCards.SpellCard)
    | Other(cardId: CardId, info: CardInfo)
  {
    function Id(): CardId
    {
      if Spell? then SpellCards.CardIdOf(spell) else cardId
    }

    function Info(): CardInfo
    {
      if Spell? then spell.info else info
    }

    /** Takes part in the battle sequence and has statistics and effects. */
    predicate IsCombat()
    {
      Hero? || Unit? || Spell?
    }

    /** Can carry item cards. */
    predicate HasItems()
    {
      Hero? || Unit?
    }

    function Statistics(): Option<Statistics.Stats>
    {
      match this
      case Hero(_, _, f) => Some(f.stats)
      case Unit(_, _, f) => Some(f.stats)
      case Item(_, _, s) => Some(s)
      case Spell(s) => Some(s.statistics)
      case _ => None
    }

    function Effects(): seq<Effect>
    {
      match this
      case Hero(_, _, f) => f.effects
      case Unit(_, _, f) => f.effects
      case Spell(s) => s.effects
      case _ => []
    }

    function Items(): seq<Equipment>
    {
      if HasItems() then fighter.items else []
    }

    /** The same card with a new statistics group (no change for a card without one). */
    function WithStats(g: Statistics.Stats): (c: Card)
      ensures c.Id() == Id() && c.IsCombat() == IsCombat() && c.HasItems() == HasItems()
      ensures c.Effects() == Effects() && c.Items() == Items()
      ensures c.Hero? == Hero? && c.Unit? == Unit? && c.Spell? == Spell?
      ensures Statistics().Some? ==> c.Statistics() == Some(g)
      ensures Statistics().None? ==> c == this
    {
      match this
      case Hero(id, i, f) => Hero(id, i, f.(stats := g))
      case Unit(id, i, f) => Unit(id, i, f.(stats := g))
      case Item(id, i, _) => Item(id, i, g)
      case Spell(s) => Spell(s.(statistics := g))
      case _ => this
    }

    /** The same card with `more` appended to its effects (no change for a non-combat card). */
    function WithMoreEffects(more: seq<Effect>): (c: Card)
      ensures c.Id() == Id() && c.IsCombat() == IsCombat() && c.Statistics() == Statistics()
      ensures c.Hero? == Hero? && c.Unit? == Unit? && c.Spell? == Spell? && c.Items() == Items()
      ensures IsCombat() ==> c.Effects() == Effects() + more
      ensures !IsCombat() ==> c == this
    {
      match this
      case Hero(id, i, f) => Hero(id, i, f.(effects := f.effects + more))
      case Unit(id, i, f) => Unit(id, i, f.(effects := f.effects + more))
      case Spell(s) => Spell(s.(effects := s.effects + more))
      case _ => this
    }

    /** Whether skill `skillIndex` deals power damage. */
    predicate DoesPowerDamage(skillIndex: int)
    {
      match this
      case Spell(s) => SpellCards.DoesPowerDamage(s, skillIndex)
      case Hero(_, _, f) => 0 <= skillIndex < |f.skills| && f.skills[skillIndex].powerDamage
      case Unit(_, _, f) => 0 <= skillIndex < |f.skills| && f.skills[skillIndex].powerDamage
      case _ => false
    }

    /** The effects skill `skillIndex` attaches to its targets. */
    function GetEffects(skillIndex: int): seq<Effect>
    {
      match this
      case Spell(s) => SpellCards.GetEffects(s, skillIndex)
      case Hero(_, _, f) => if 0 <= skillIndex < |f.skills| then f.skills[skillIndex].effects else []
      case Unit(_, _, f) => if 0 <= skillIndex < |f.skills| then f.skills[skillIndex].effects else []
      case _ => []
    }
  }

  /** Current HP; a card without statistics has none to lose. */
  predicate IsCardDead(c: Card)
  {
    c.Statistics().Some? && Statistics.Calculated(c.Statistics().value.hp) <= 0
  }

  /** The card after losing `damage` HP. */
  function Damaged(c: Card, damage: int): (r: Card)
    ensures r.Id() == c.Id() && r.Effects() == c.Effects() && r.IsCombat() == c.IsCombat()
    ensures c.Statistics().Some? ==>
      r.Statistics().Some? &&
      Statistics.Calculated(r.Statistics().value.hp) == Statistics.Calculated(c.Statistics().value.hp) - damage
  {
    match c.Statistics()
    case Some(g) => c.WithStats(Statistics.Damaged(g, damage))
    case None => c
  }

  /** The card with every item's statistics merged in, each tagged with the item's id. */
  function WithItemModifiers(c: Card): (r: Card)
    ensures r.Id() == c.Id() && r.Effects() == c.Effects() && r.Items() == c.Items()
    ensures r.Hero? == c.Hero? && r.Unit? == c.Unit? && r.Spell? == c.Spell?
    ensures c.Statistics().Some? ==> r.Statistics() == Some(ModifyAll(c.Statistics().value, c.Items()))
    ensures c.Statistics().None? ==> r == c
  {
    match c.Statistics()
    case Some(g) => c.WithStats(ModifyAll(g, c.Items()))
    case None => c
  }

  /** The card with every item's modifiers taken off again. */
  function WithoutItemModifiers(c: Card): (r: Card)
    ensures r.Id() == c.Id() && r.Effects() == c.Effects() && r.Items() == c.Items()
    ensures r.Hero? == c.Hero? && r.Unit? == c.Unit? && r.Spell? == c.Spell?
    ensures c.Statistics().Some? ==> r.Statistics() == Some(RemoveAllItems(c.Statistics().value, c.Items()))
    ensures c.Statistics().None? ==> r == c
  {
    match c.Statistics()
    case Some(g) => c.WithStats(RemoveAllItems(g, c.Items()))
    case None => c
  }

  /**
   * Merges every item's statistics in, in item order, each as the modifiers of the item's
   * id. Items only add modifiers: original values and lost HP stay as they were.
   */
  function ModifyAll(g: Statistics.Stats, items: seq<Equipment>): (r: Statistics.Stats)
    ensures r.attack.original == g.attack.original && r.attack.lost == g.attack.lost
    ensures r.hp.original == g.hp.original && r.hp.lost == g.hp.lost
    ensures r.speed.original == g.speed.original && r.speed.lost == g.speed.lost
    ensures r.power.original == g.power.original && r.power.lost == g.power.lost
    decreases |items|
  {
    if items == [] then g
    else ModifyAll(Statistics.Modify(g, items[0].stats, items[0].id.value), items[1..])
  }

  /**
   * Takes every item's modifiers off: afterwards no statistic carries a modifier from any
   * of the items, and a source that was absent before is still absent.
   */
  function RemoveAllItems(g: Statistics.Stats, items: seq<Equipment>): (r: Statistics.Stats)
    ensures forall e :: e in items ==> Statistics.Untagged(r, e.id.value)
    ensures forall id :: Statistics.Untagged(g, id) ==> Statistics.Untagged(r, id)
    ensures r.attack.original == g.attack.original && r.attack.lost == g.attack.lost
    ensures r.hp.original == g.hp.original && r.hp.lost == g.hp.lost
    ensures r.speed.original == g.speed.original && r.speed.lost == g.speed.lost
    ensures r.power.original == g.power.original && r.power.lost == g.power.lost
    decreases |items|
  {
    if items == [] then g
    else RemoveAllItems(Statistics.RemoveAll(g, items[0].id.value), items[1..])
  }

  /** No two items share an id. */
  predicate DistinctItemIds(items: seq<Equipment>)
  {
    forall i, j :: 0 <= i < j < |items| ==> items[i].id.value != items[j].id.value
  }

  /** None of the items' ids tags a modifier of `g`. */
  predicate UntaggedByItems(g: Statistics.Stats, items: seq<Equipment>)
  {
    forall e :: e in items ==> Statistics.Untagged(g, e.id.value)
  }

  /** Removing a source none of the items carries commutes with merging all the items in. */
  lemma {:induction false} RemoveThroughModifyAll(g: Statistics.Stats, items: seq<Equipment>, a: string)
    requires forall e :: e in items ==> e.id.value != a
    ensures Statistics.RemoveAll(ModifyAll(g, items), a) == ModifyAll(Statistics.RemoveAll(g, a), items)
    decreases |items|
  {
    if items != [] {
      var h := Statistics.Modify(g, items[0].stats, items[0].id.value);
      RemoveThroughModifyAll(h, items[1..], a);
      Statistics.RemoveAllModifyCommute(g, items[0].stats, a, items[0].id.value);
    }
  }

  /**
   * Item round trip on statistics: merging a list of distinct items in and then taking
   * them all off again restores a group none of them had touched.
   */
  lemma {:induction false} ItemsRoundTrip(g: Statistics.Stats, items: seq<Equipment>)
    requires DistinctItemIds(items)
    requires UntaggedByItems(g, items)
    ensures RemoveAllItems(ModifyAll(g, items), items) == g
    decreases |items|
  {
    if items != [] {
      var a := items[0].id.value;
      var rest := items[1..];
      var h := Statistics.Modify(g, items[0].stats, a);
      forall e | e in rest
        ensures e.id.value != a
      {
        var k :| 0 <= k < |rest| && rest[k] == e;
        assert items[k + 1] == e;
      }
      RemoveThroughModifyAll(h, rest, a);
      Statistics.ModifyThenRemoveAllRestores(g, items[0].stats, a);
      assert DistinctItemIds(rest) by {
        forall i, j | 0 <= i < j < |rest|
          ensures rest[i].id.value != rest[j].id.value
        {
          assert rest[i] == items[i + 1] && rest[j] == items[j + 1];
        }
      }
      ItemsRoundTrip(g, rest);
    }
  }

  /**
   * Card-level item round trip: a card whose items have distinct ids and whose statistics
   * carry none of their modifiers comes back unchanged from putting the items on and
   * taking them off.
   */
  lemma CardItemsRoundTrip(c: Card)
    requires DistinctItemIds(c.Items())
    requires c.Statistics().Some? ==> UntaggedByItems(c.Statistics().value, c.Items())
    ensures WithoutItemModifiers(WithItemModifiers(c)) == c
  {
    if c.Statistics().Some? {
      ItemsRoundTrip(c.Statistics().value, c.Items());
    }
  }

  /**
   * Taking a card's item statistics out can kill it: a card whose one item lends it HP,
   * and which is then dealt at least its own HP but less than its HP with the item,
   * survives the damage and is dead once the item's modifiers come out again.
   */
  lemma ItemStripCanKill(c: Card, item: Equipment, damage: int)
    requires c.HasItems() && c.Items() == [item]
    requires Statistics.Untagged(c.fighter.stats, item.id.value)
    requires Statistics.Calculated(c.fighter.stats.hp) <= damage
    requires damage < Statistics.Calculated(c.fighter.stats.hp) + Statistics.Calculated(item.stats.hp)
    ensures !IsCardDead(Damaged(WithItemModifiers(c), damage))
    ensures IsCardDead(WithoutItemModifiers(Damaged(WithItemModifiers(c), damage)))
  {
    var g := c.fighter.stats;
    var id := item.id.value;
    var armed := Statistics.Modify(g, item.stats, id);
    assert [item][1..] == [];
    assert ModifyAll(g, [item]) == armed;
    Statistics.ModifyAdds(g, item.stats, id);
    Statistics.ModifyThenRemoveAllRestores(g, item.stats, id);
    Statistics.RemoveAllDamaged(armed, id, damage);
    assert RemoveAllItems(Statistics.Damaged(armed, damage), [item])
        == RemoveAllItems(Statistics.RemoveAll(Statistics.Damaged(armed, damage), id), []);
  }

  /**
   * `a` and `b` are two copies of one card: the same variant, id and fixed parts (name
   * and kind, items, skills, a spell's damage and required elements); statistics and
   * effects may differ.
   */
  predicate SameCard(a: Card, b: Card)
  {
    match a
    case Hero(id, i, f) => b.Hero? && b.cardId == id && b.info == i && b.fighter.items == f.items && b.fighter.skills == f.skills
    case Unit(id, i, f) => b.Unit? && b.cardId == id && b.info == i && b.fighter.items == f.items && b.fighter.skills == f.skills
    case Spell(s) =>
      b.Spell? && b.spell.id == s.id && b.spell.info == s.info && b.spell.damage == s.damage
      && b.spell.requiredElements == s.requiredElements
    case _ => a == b
  }

  /** Copies of one card agree on everything combat reads apart from statistics and effects. */
  lemma SameCardAgrees(a: Card, b: Card, skillIndex: int)
    requires SameCard(a, b)
    ensures a.Id() == b.Id() && a.IsCombat() == b.IsCombat() && a.HasItems() == b.HasItems() && a.Items() == b.Items()
    ensures a.Hero? == b.Hero? && a.Unit? == b.Unit? && a.Spell? == b.Spell?
    ensures a.Spell? ==> a.spell.damage == b.spell.damage
    ensures a.DoesPowerDamage(skillIndex) == b.DoesPowerDamage(skillIndex)
    ensures !a.Spell? ==> a.GetEffects(skillIndex) == b.GetEffects(skillIndex)
  {
  }

  /** A spell card's generic id is its spell id's value. */
  lemma SpellIdIsSpellCardId(s: SpellCards.SpellCard)
    ensures Spell(s).Id().value == s.id.value
  {
  }
}
