/**
 * The pure parts of combat resolution: the damage rule, target selection, the fold of the
 * effects' before-hooks over a move, and the records the resolution leaves behind
 * (damage inflicted, spells consumed, effects attached, hooks called).
 */
module Combat {
  import opened Wrappers
  import opened CardBasics
  import opened Cards
  import Statistics

  /** The round-scoped exclusion list and forced targets effects may set up. */
  datatype RoundSettings = RoundSettings(notAllowedAsTarget: set<string>, prioritized: map<string, CardId>)

  /**
   * What effects do when a hook fires. Hooks that hand a Move or the round settings to the
   * effect return the updated value; the others leave only a record in the trace.
   */
  datatype Hooks = Hooks(
    onRoundStart: (Effect, CardId, RoundSettings) -> RoundSettings,
    beforeMoveAtAll: (Effect, CardId, Move) -> Move,
    beforeMoveAtSingleTarget: (Effect, CardId, CardId, Move) -> Move,
    beforeReceive: (Effect, CardId, CardId, Move) -> Move)

  datatype HookKind = OnRoundStart | AfterMoveAtAll | AfterMoveAtSingleTarget | AfterReceive | OnRoundFinish

  /**
   * One observable step: a hook call (the effect, the card it belongs to, the other card
   * involved and the move handed over), damage dealt to a card, a spell consumed, or a
   * skill's effects attached to a card.
   */
  datatype Event =
    | Hooked(kind: HookKind, effect: Effect, self: CardId, other: Option<CardId>, move: Option<Move>)
    | Inflicted(target: CardId, damage: int)
    | Killed(card: CardId)
    | EffectsAttached(target: CardId, effects: seq<Effect>)

  /**
   * The damage rule: a spell resolving a Skill deals its fixed damage; otherwise a Skill
   * deals the attacker's current Power and an Attack its current Attack. The defender does
   * not enter into it.
   */
  function CalculateDamage(attacker: Card, defender: Option<Card>, moveType: MoveType, skillIndex: int): int
    requires attacker.IsCombat()
  {
    if attacker.Spell? && moveType == MoveType.Skill then attacker.spell.damage
    else match moveType
      case Skill => Statistics.Calculated(attacker.Statistics().value.power)
      case Attack => Statistics.Calculated(attacker.Statistics().value.attack)
  }

  lemma CalculateDamageRule(attacker: Card, d1: Option<Card>, d2: Option<Card>, moveType: MoveType, skillIndex: int)
    requires attacker.IsCombat()
    ensures CalculateDamage(attacker, d1, moveType, skillIndex) == CalculateDamage(attacker, d2, moveType, skillIndex)
    ensures attacker.Spell? && moveType == MoveType.Skill ==> CalculateDamage(attacker, d1, moveType, skillIndex) == attacker.spell.damage
    ensures !attacker.Spell? && moveType == MoveType.Skill ==>
      CalculateDamage(attacker, d1, moveType, skillIndex) == Statistics.Calculated(attacker.Statistics().value.power)
    ensures moveType == Attack ==>
      CalculateDamage(attacker, d1, moveType, skillIndex) == Statistics.Calculated(attacker.Statistics().value.attack)
  {
  }

  /** A spell's Skill damage does not depend on its statistics at all. */
  lemma SpellDamageIgnoresStats(attacker: Card, g: Statistics.Stats, skillIndex: int)
    requires attacker.Spell?
    ensures CalculateDamage(attacker.WithStats(g), None, MoveType.Skill, skillIndex) == CalculateDamage(attacker, None, MoveType.Skill, skillIndex)
  {
  }

  /**
   * For a spell the damage gate and the damage rule agree: a spell's Skill deals power
   * damage exactly when the damage the rule computes for it is positive.
   */
  lemma SpellHarmsIffPowerDamage(s: SpellCards.SpellCard, defender: Option<Card>, skillIndex: int)
    ensures Spell(s).DoesPowerDamage(skillIndex) <==> CalculateDamage(Spell(s), defender, MoveType.Skill, skillIndex) > 0
  {
  }

  function Ids(cards: seq<Card>): (r: seq<CardId>)
    ensures |r| == |cards| && forall i :: 0 <= i < |cards| ==> r[i] == cards[i].Id()
  {
    seq(|cards|, i requires 0 <= i < |cards| => cards[i].Id())
  }

  predicate DistinctIds(cards: seq<Card>)
  {
    forall i, j :: 0 <= i < j < |cards| ==> cards[i].Id() != cards[j].Id()
  }

  /** The cards satisfying `keep`, in their order. */
  function Filter(cards: seq<Card>, keep: Card -> bool): (r: seq<Card>)
    ensures |r| <= |cards|
    ensures forall c :: c in r <==> c in cards && keep(c)
  {
    if cards == [] then []
    else (if keep(cards[0]) then [cards[0]] else []) + Filter(cards[1..], keep)
  }

  /** The cards of `cards` whose ids are listed in `ids`. */
  function Listed(cards: seq<Card>, ids: seq<CardId>): seq<Card>
  {
    Filter(cards, (c: Card) => c.Id() in ids)
  }

  /** The cards not on the exclusion list. */
  function Allowed(cards: seq<Card>, notAllowed: set<string>): seq<Card>
  {
    Filter(cards, (c: Card) => c.Id().value !in notAllowed)
  }

  function WithId(cards: seq<Card>, id: CardId): seq<Card>
  {
    Filter(cards, (c: Card) => c.Id() == id)
  }

  function CombatOnly(cards: seq<Card>): seq<Card>
  {
    Filter(cards, (c: Card) => c.IsCombat())
  }

  /** The move after the attacker's BeforeMoveAtAll hooks, applied in effect order. */
  function FoldAtAll(h: Hooks, effects: seq<Effect>, attacker: CardId, m: Move): Move
  {
    if effects == [] then m
    else h.beforeMoveAtAll(effects[|effects| - 1], attacker, FoldAtAll(h, effects[..|effects| - 1], attacker, m))
  }

  /** The move at one target after the attacker's BeforeMoveAtSingleTarget hooks. */
  function FoldAtSingle(h: Hooks, effects: seq<Effect>, attacker: CardId, target: CardId, m: Move): Move
  {
    if effects == [] then m
    else h.beforeMoveAtSingleTarget(effects[|effects| - 1], attacker, target,
                                     FoldAtSingle(h, effects[..|effects| - 1], attacker, target, m))
  }

  /** The move at one target after that target's own BeforeReceive hooks. */
  function FoldReceive(h: Hooks, effects: seq<Effect>, target: CardId, attacker: CardId, m: Move): Move
  {
    if effects == [] then m
    else h.beforeReceive(effects[|effects| - 1], target, attacker, FoldReceive(h, effects[..|effects| - 1], target, attacker, m))
  }

  /** The round settings after every combat card's OnRoundStart hooks, in battle order. */
  function FoldRoundStart(h: Hooks, cards: seq<Card>, rs: RoundSettings): RoundSettings
  {
    if cards == [] then rs
    else
      var c := cards[|cards| - 1];
      FoldEffectsRoundStart(h, c.Effects(), c.Id(), FoldRoundStart(h, cards[..|cards| - 1], rs))
  }

  function FoldEffectsRoundStart(h: Hooks, effects: seq<Effect>, card: CardId, rs: RoundSettings): RoundSettings
  {
    if effects == [] then rs
    else h.onRoundStart(effects[|effects| - 1], card, FoldEffectsRoundStart(h, effects[..|effects| - 1], card, rs))
  }

  /** Hooks applied to `a + b` are the hooks of `a` followed by those of `b`. */
  lemma {:induction false} FoldAtAllAppend(h: Hooks, a: seq<Effect>, b: seq<Effect>, attacker: CardId, m: Move)
    ensures FoldAtAll(h, a + b, attacker, m) == FoldAtAll(h, b, attacker, FoldAtAll(h, a, attacker, m))
    decreases |b|
  {
    if b == [] {
      assert a + b == a;
    } else {
      assert (a + b)[..|a + b| - 1] == a + b[..|b| - 1];
      FoldAtAllAppend(h, a, b[..|b| - 1], attacker, m);
    }
  }

  /** One hook call per effect fired for `card` at round start or finish. */
  function CardHookEvents(kind: HookKind, effects: seq<Effect>, card: CardId): (r: seq<Event>)
    ensures |r| == |effects|
    ensures forall i :: 0 <= i < |r| ==> r[i] == Hooked(kind, effects[i], card, None, None)
  {
    seq(|effects|, i requires 0 <= i < |effects| => Hooked(kind, effects[i], card, None, None))
  }

  /** The round-level hook calls of the combat cards among `cards`, in battle order. */
  function RoundHookEvents(kind: HookKind, cards: seq<Card>): (r: seq<Event>)
    ensures forall e :: e in r ==> e.Hooked? && e.kind == kind && e.other.None? && e.move.None?
  {
    if cards == [] then []
    else
      var c := cards[|cards| - 1];
      RoundHookEvents(kind, cards[..|cards| - 1]) + (if c.IsCombat() then CardHookEvents(kind, c.Effects(), c.Id()) else [])
  }

  predicate Covers(moves: map<CardId, Move>, targets: seq<Card>)
  {
    forall t :: t in targets ==> t.Id() in moves
  }

  /** What an Attack leaves behind when every target takes its damage. */
  function AttackEvents(targets: seq<Card>, moves: map<CardId, Move>): (r: seq<Event>)
    requires Covers(moves, targets)
    ensures |r| == |targets|
    ensures forall i :: 0 <= i < |targets| ==> r[i] == Inflicted(targets[i].Id(), moves[targets[i].Id()].damage)
  {
    seq(|targets|, i requires 0 <= i < |targets| => Inflicted(targets[i].Id(), moves[targets[i].Id()].damage))
  }

  /** What a Skill leaves behind at one target it reaches. */
  function SkillEventsAt(t: Card, m: Move, attacker: Card, skillIndex: int): seq<Event>
  {
    if !m.skillsEnabled then []
    else
      (if attacker.DoesPowerDamage(skillIndex) then [Inflicted(t.Id(), m.damage)] else [])
      + (if attacker.Spell? then [Killed(attacker.Id())] else [])
      + (if m.effectsEnabled then [EffectsAttached(t.Id(), attacker.GetEffects(skillIndex))] else [])
  }

  function SkillEvents(targets: seq<Card>, moves: map<CardId, Move>, attacker: Card, skillIndex: int): seq<Event>
    requires Covers(moves, targets)
  {
    if targets == [] then []
    else
      var t := targets[|targets| - 1];
      SkillEvents(targets[..|targets| - 1], moves, attacker, skillIndex) + SkillEventsAt(t, moves[t.Id()], attacker, skillIndex)
  }

  /**
   * A record Skill resolution may leave: damage only with power damage and only at a
   * target whose move keeps skills enabled, the attacker consumed only when it is a spell,
   * the skill's own effects attached only where effects stay enabled.
   */
  predicate SkillRecord(e: Event, targets: seq<Card>, moves: map<CardId, Move>, attacker: Card, skillIndex: int)
    requires Covers(moves, targets)
  {
    match e
    case Inflicted(id, d) =>
      attacker.DoesPowerDamage(skillIndex) && exists t :: t in targets && t.Id() == id && moves[id].skillsEnabled && d == moves[id].damage
    case Killed(id) => attacker.Spell? && id == attacker.Id()
    case EffectsAttached(id, effs) =>
      effs == attacker.GetEffects(skillIndex) && exists t :: t in targets && t.Id() == id && moves[id].effectsEnabled
    case Hooked(_, _, _, _, _) => false
  }

  lemma {:induction false} SkillEventsAreRecords(targets: seq<Card>, moves: map<CardId, Move>, attacker: Card, skillIndex: int)
    requires Covers(moves, targets)
    ensures forall e :: e in SkillEvents(targets, moves, attacker, skillIndex) ==> SkillRecord(e, targets, moves, attacker, skillIndex)
  {
    if targets != [] {
      var init := targets[..|targets| - 1];
      var t := targets[|targets| - 1];
      SkillEventsAreRecords(init, moves, attacker, skillIndex);
      forall e | e in SkillEvents(init, moves, attacker, skillIndex)
        ensures SkillRecord(e, targets, moves, attacker, skillIndex)
      {
        assert SkillRecord(e, init, moves, attacker, skillIndex);
        SkillRecordWidens(e, init, targets, moves, attacker, skillIndex);
      }
      forall e | e in SkillEventsAt(t, moves[t.Id()], attacker, skillIndex)
        ensures SkillRecord(e, targets, moves, attacker, skillIndex)
      {
        assert t in targets;
      }
    }
  }

  lemma SkillRecordWidens(e: Event, small: seq<Card>, big: seq<Card>, moves: map<CardId, Move>, attacker: Card, skillIndex: int)
    requires Covers(moves, big) && (forall t :: t in small ==> t in big)
    requires Covers(moves, small)
    requires SkillRecord(e, small, moves, attacker, skillIndex)
    ensures SkillRecord(e, big, moves, attacker, skillIndex)
  {
  }

  /** The after-hook calls of one move, in the order they fire. */
  function AfterEvents(attacker: Card, targets: seq<Card>, targetEffects: seq<seq<Effect>>,
                       moveType: MoveType, skillIndex: int): seq<Event>
    requires attacker.IsCombat() && |targetEffects| == |targets|
  {
    AfterAllEvents(attacker.Effects(), attacker.Id(), moveType)
    + AfterSingleEvents(attacker, attacker.Effects(), targets, moveType, skillIndex)
    + AfterReceiveEvents(attacker.Id(), targets, targetEffects, moveType)
  }

  /** AfterMoveAtAll hands every attacker effect a fresh move with the literal damage 23. */
  function AfterAllEvents(effects: seq<Effect>, attacker: CardId, moveType: MoveType): (r: seq<Event>)
    ensures |r| == |effects|
    ensures forall i :: 0 <= i < |r| ==> r[i] == Hooked(AfterMoveAtAll, effects[i], attacker, None, Some(NewMove(23, moveType)))
  {
    seq(|effects|, i requires 0 <= i < |effects| => Hooked(AfterMoveAtAll, effects[i], attacker, None, Some(NewMove(23, moveType))))
  }

  /** AfterMoveAtSingleTarget: per attacker effect, per target, a move with freshly computed damage. */
  function AfterSingleEvents(attacker: Card, effects: seq<Effect>, targets: seq<Card>, moveType: MoveType, skillIndex: int): seq<Event>
    requires attacker.IsCombat()
  {
    if effects == [] then []
    else AfterSingleEvents(attacker, effects[..|effects| - 1], targets, moveType, skillIndex)
         + AfterSingleFor(attacker, effects[|effects| - 1], targets, moveType, skillIndex)
  }

  function AfterSingleFor(attacker: Card, e: Effect, targets: seq<Card>, moveType: MoveType, skillIndex: int): (r: seq<Event>)
    requires attacker.IsCombat()
    ensures |r| == |targets|
    ensures forall i :: 0 <= i < |r| ==>
      r[i] == Hooked(AfterMoveAtSingleTarget, e, attacker.Id(), Some(targets[i].Id()),
                     Some(NewMove(CalculateDamage(attacker, Some(targets[i]), moveType, skillIndex), moveType)))
  {
    seq(|targets|, i requires 0 <= i < |targets| =>
      Hooked(AfterMoveAtSingleTarget, e, attacker.Id(), Some(targets[i].Id()),
             Some(NewMove(CalculateDamage(attacker, Some(targets[i]), moveType, skillIndex), moveType))))
  }

  /** AfterReceive: per target, per own effect, again the literal damage 23. */
  function AfterReceiveEvents(attacker: CardId, targets: seq<Card>, targetEffects: seq<seq<Effect>>, moveType: MoveType): seq<Event>
    requires |targetEffects| == |targets|
  {
    if targets == [] then []
    else
      var n := |targets| - 1;
      AfterReceiveEvents(attacker, targets[..n], targetEffects[..n], moveType)
      + AfterReceiveFor(targets[n].Id(), targetEffects[n], attacker, moveType)
  }

  function AfterReceiveFor(target: CardId, effects: seq<Effect>, attacker: CardId, moveType: MoveType): (r: seq<Event>)
    ensures |r| == |effects|
    ensures forall i :: 0 <= i < |r| ==> r[i] == Hooked(AfterReceive, effects[i], target, Some(attacker), Some(NewMove(23, moveType)))
  {
    seq(|effects|, i requires 0 <= i < |effects| => Hooked(AfterReceive, effects[i], target, Some(attacker), Some(NewMove(23, moveType))))
  }

  /**
   * An after-hook record: card-wide and defender hooks see damage 23 and fresh gates; the
   * per-target attacker hook sees the damage rule's value, which for a spell's Skill is
   * the spell's fixed damage.
   */
  predicate AfterRecord(e: Event, attacker: Card, moveType: MoveType)
  {
    && e.Hooked?
    && e.move.Some? && e.move.value.moveType == moveType
    && match e.kind
       case AfterMoveAtAll => e.move.value == NewMove(23, moveType) && e.self == attacker.Id()
       case AfterReceive => e.move.value == NewMove(23, moveType) && e.other == Some(attacker.Id())
       case AfterMoveAtSingleTarget =>
         && e.self == attacker.Id()
         && (attacker.Spell? && moveType == MoveType.Skill ==> e.move.value.damage == attacker.spell.damage)
       case _ => false
  }

  lemma AfterEventsAreRecords(attacker: Card, targets: seq<Card>, targetEffects: seq<seq<Effect>>,
                              moveType: MoveType, skillIndex: int)
    requires attacker.IsCombat() && |targetEffects| == |targets|
    ensures forall e :: e in AfterEvents(attacker, targets, targetEffects, moveType, skillIndex) ==> AfterRecord(e, attacker, moveType)
  {
    AfterSingleAreRecords(attacker, attacker.Effects(), targets, moveType, skillIndex);
    AfterReceiveAreRecords(attacker.Id(), targets, targetEffects, moveType, attacker);
  }

  lemma {:induction false} AfterSingleAreRecords(attacker: Card, effects: seq<Effect>, targets: seq<Card>, moveType: MoveType, skillIndex: int)
    requires attacker.IsCombat()
    ensures forall e :: e in AfterSingleEvents(attacker, effects, targets, moveType, skillIndex) ==> AfterRecord(e, attacker, moveType)
  {
    if effects != [] {
      AfterSingleAreRecords(attacker, effects[..|effects| - 1], targets, moveType, skillIndex);
    }
  }

  lemma {:induction false} AfterReceiveAreRecords(attackerId: CardId, targets: seq<Card>, targetEffects: seq<seq<Effect>>, moveType: MoveType, attacker: Card)
    requires |targetEffects| == |targets| && attackerId == attacker.Id()
    ensures forall e :: e in AfterReceiveEvents(attackerId, targets, targetEffects, moveType) ==> AfterRecord(e, attacker, moveType)
  {
    if targets != [] {
      var n := |targets| - 1;
      AfterReceiveAreRecords(attackerId, targets[..n], targetEffects[..n], moveType, attacker);
    }
  }

  /** Runs the attacker's BeforeMoveAtAll hooks over the shared move, in effect order. */
  method RunBeforeMoveAtAll(h: Hooks, effects: seq<Effect>, attacker: CardId, m: Move) returns (out: Move)
    ensures out == FoldAtAll(h, effects, attacker, m)
  {
    out := m;
    for k := 0 to |effects|
      invariant out == FoldAtAll(h, effects[..k], attacker, m)
    {
      assert effects[..k + 1][..k] == effects[..k];
      out := h.beforeMoveAtAll(effects[k], attacker, out);
    }
    assert effects[..|effects|] == effects;
  }

  /**
   * Builds one move per target, each carrying the shared move's damage and fresh gates;
   * a second target with the same id is a duplicate key.
   */
  method BuildMoves(targets: seq<Card>, damage: int, moveType: MoveType) returns (moves: map<CardId, Move>, duplicate: bool)
    ensures duplicate <==> !DistinctIds(targets)
    ensures !duplicate ==> Covers(moves, targets)
    ensures !duplicate ==> forall id :: id in moves ==>
      moves[id] == NewMove(damage, moveType) && exists i :: 0 <= i < |targets| && targets[i].Id() == id
  {
    moves := map[];
    for i := 0 to |targets|
      invariant DistinctIds(targets[..i])
      invariant forall j :: 0 <= j < i ==> targets[j].Id() in moves
      invariant forall id :: id in moves ==>
        moves[id] == NewMove(damage, moveType) && exists j :: 0 <= j < i && targets[j].Id() == id
    {
      var id := targets[i].Id();
      if id in moves {
        var j :| 0 <= j < i && targets[j].Id() == id;
        return moves, true;
      }
      moves := moves[id := NewMove(damage, moveType)];
    }
    assert targets[..|targets|] == targets;
    return moves, false;
  }

  /** Runs every attacker effect's BeforeMoveAtSingleTarget hook at every target, effect by effect. */
  method RunBeforeMoveAtSingleTarget(h: Hooks, effects: seq<Effect>, attacker: CardId, targets: seq<Card>,
                                     moves: map<CardId, Move>) returns (out: map<CardId, Move>)
    requires DistinctIds(targets) && Covers(moves, targets)
    ensures out.Keys == moves.Keys
    ensures forall i :: 0 <= i < |targets| ==>
      out[targets[i].Id()] == FoldAtSingle(h, effects, attacker, targets[i].Id(), moves[targets[i].Id()])
  {
    out := moves;
    for k := 0 to |effects|
      invariant out.Keys == moves.Keys
      invariant forall i :: 0 <= i < |targets| ==>
        out[targets[i].Id()] == FoldAtSingle(h, effects[..k], attacker, targets[i].Id(), moves[targets[i].Id()])
    {
      assert effects[..k + 1][..k] == effects[..k];
      for j := 0 to |targets|
        invariant out.Keys == moves.Keys
        invariant forall i :: 0 <= i < j ==>
          out[targets[i].Id()] == FoldAtSingle(h, effects[..k + 1], attacker, targets[i].Id(), moves[targets[i].Id()])
        invariant forall i :: j <= i < |targets| ==>
          out[targets[i].Id()] == FoldAtSingle(h, effects[..k], attacker, targets[i].Id(), moves[targets[i].Id()])
      {
        var id := targets[j].Id();
        out := out[id := h.beforeMoveAtSingleTarget(effects[k], attacker, id, out[id])];
      }
    }
    assert effects[..|effects|] == effects;
  }

  /** Runs each target's own BeforeReceive hooks on its move, target by target. */
  method RunBeforeReceive(h: Hooks, targets: seq<Card>, targetEffects: seq<seq<Effect>>, attacker: CardId,
                          moves: map<CardId, Move>) returns (out: map<CardId, Move>)
    requires DistinctIds(targets) && Covers(moves, targets) && |targetEffects| == |targets|
    ensures out.Keys == moves.Keys
    ensures forall i :: 0 <= i < |targets| ==>
      out[targets[i].Id()] == FoldReceive(h, targetEffects[i], targets[i].Id(), attacker, moves[targets[i].Id()])
  {
    out := moves;
    for j := 0 to |targets|
      invariant out.Keys == moves.Keys
      invariant forall i :: 0 <= i < j ==>
        out[targets[i].Id()] == FoldReceive(h, targetEffects[i], targets[i].Id(), attacker, moves[targets[i].Id()])
      invariant forall i :: j <= i < |targets| ==> out[targets[i].Id()] == moves[targets[i].Id()]
    {
      var id := targets[j].Id();
      var effects := targetEffects[j];
      var m := out[id];
      for k := 0 to |effects|
        invariant m == FoldReceive(h, effects[..k], id, attacker, moves[id])
      {
        assert effects[..k + 1][..k] == effects[..k];
        m := h.beforeReceive(effects[k], id, attacker, m);
      }
      assert effects[..|effects|] == effects;
      out := out[id := m];
    }
  }
}
