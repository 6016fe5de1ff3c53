/**
 * The match aggregate. Every action first asks the action controller whether it is
 * admissible now (and for which player), then changes the game state, then tells the
 * controller what comes next. The round cursor walks the battle sequence one card per
 * PerformMove; PerformMove resolves that card's move against its targets.
 */
module Gameplay {
  import opened Wrappers
  import opened CardBasics
  import opened Cards
  import opened Combat
  import AC = ActionControl
  import P = Players

  /** Where a requested hand card comes from. */
  datatype CardSource = CommonPool | Own

  datatype CardToTake = CardToTake(source: CardSource)

  /** Rounds a centre card may survive before the game ends. */
  const CenterCardRoundsLimit := 6

  /** The first player with the id. */
  function PlayerOfId(ps: seq<P.Player>, id: UserId): (r: Option<P.Player>)
    ensures r.Some? ==> r.value in ps && r.value.id == id
    ensures r.None? ==> forall p :: p in ps ==> p.id != id
  {
    if ps == [] then None else if ps[0].id == id then Some(ps[0]) else PlayerOfId(ps[1..], id)
  }

  /** The first player holding a card with the id. */
  function PlayerWithCard(ps: seq<P.Player>, id: CardId): (r: Option<P.Player>)
    reads ps
    ensures r.Some? ==> r.value in ps && r.value.Has(id)
    ensures r.None? ==> forall p :: p in ps ==> !p.Has(id)
  {
    if ps == [] then None else if ps[0].Has(id) then Some(ps[0]) else PlayerWithCard(ps[1..], id)
  }

  /** The holder of each card, looked up once. */
  function Holders(ps: seq<P.Player>, cards: seq<Card>): (r: seq<Option<P.Player>>)
    reads ps
    ensures |r| == |cards|
    ensures forall i :: 0 <= i < |cards| ==> r[i] == PlayerWithCard(ps, cards[i].Id())
    ensures forall i :: 0 <= i < |cards| && r[i].Some? ==> r[i].value in ps
  {
    seq(|cards|, i reads ps requires 0 <= i < |cards| => PlayerWithCard(ps, cards[i].Id()))
  }

  /** Every battling deck, concatenated in player order. */
  function BattlingCards(ps: seq<P.Player>): (r: seq<Card>)
    reads ps
    ensures forall p, c :: p in ps && c in p.battlingDeck ==> c in r
    ensures forall c :: c in r ==> exists p :: p in ps && c in p.battlingDeck
  {
    if ps == [] then [] else ps[0].battlingDeck + BattlingCards(ps[1..])
  }

  /** The battling decks of everybody but the player with the id, concatenated in player order. */
  function EnemyBattlingCards(ps: seq<P.Player>, id: UserId): (r: seq<Card>)
    reads ps
    ensures forall p, c :: p in ps && p.id != id && c in p.battlingDeck ==> c in r
    ensures forall c :: c in r ==> exists p :: p in ps && p.id != id && c in p.battlingDeck
  {
    if ps == [] then []
    else (if ps[0].id != id then ps[0].battlingDeck else []) + EnemyBattlingCards(ps[1..], id)
  }

  /** The combat cards on the battling decks of everybody but the player with the id. */
  function EnemyCombatCards(ps: seq<P.Player>, id: UserId): (r: seq<Card>)
    reads ps
    ensures forall c :: c in r <==> c in EnemyBattlingCards(ps, id) && c.IsCombat()
  {
    CombatOnly(EnemyBattlingCards(ps, id))
  }

  /**
   * The card as its holder keeps it now. The battle sequence and the target lists hold
   * copies; the holder's copy carries the current statistics and effects.
   */
  function Live(holder: Option<P.Player>, c: Card): (r: Card)
    reads if holder.Some? then {holder.value} else {}
    ensures SameCard(r, c)
    ensures holder.Some? && holder.value.CardWithId(c.Id()).Some? && SameCard(holder.value.CardWithId(c.Id()).value, c) ==>
      r == holder.value.CardWithId(c.Id()).value
  {
    if holder.Some? && holder.value.CardWithId(c.Id()).Some? && SameCard(holder.value.CardWithId(c.Id()).value, c)
    then holder.value.CardWithId(c.Id()).value
    else c
  }

  /** The current effects of each target, read from its holder. */
  function LiveEffects(ps: seq<P.Player>, holders: seq<Option<P.Player>>, targets: seq<Card>): (r: seq<seq<Effect>>)
    requires |holders| == |targets|
    requires forall i :: 0 <= i < |holders| && holders[i].Some? ==> holders[i].value in ps
    reads ps
    ensures |r| == |targets|
    ensures forall i :: 0 <= i < |targets| ==> r[i] == Live(holders[i], targets[i]).Effects()
  {
    seq(|targets|, i reads ps requires 0 <= i < |targets| => Live(holders[i], targets[i]).Effects())
  }

  /** The current copy of each card of the battle sequence. */
  function LiveCards(ps: seq<P.Player>, cards: seq<Card>): (r: seq<Card>)
    reads ps
    ensures |r| == |cards|
    ensures forall i :: 0 <= i < |cards| ==> r[i] == Live(PlayerWithCard(ps, cards[i].Id()), cards[i])
  {
    seq(|cards|, i reads ps requires 0 <= i < |cards| => Live(PlayerWithCard(ps, cards[i].Id()), cards[i]))
  }

  /** What PerformMove resolves: the card, its holder, its assignment, the targets and the move type. */
  datatype Plan = Plan(card: Card, owner: P.Player, assignment: P.CardAssignment,
                       targets: seq<Card>, moveType: MoveType)

  /** How PerformMove's checks before resolution end: a fault, an early return, or resolution. */
  datatype Prelim = Fails(fault: Fault) | Exits(ok: bool) | Proceeds(plan: Plan)

  /** The outcome of the damage step. */
  datatype StrikeResult = Done | HeroDown | NoHolder

  /** An Attack resolves when the move stays enabled as an attack and the card is a hero or unit. */
  predicate AttackGate(plan: Plan, m: Move)
  {
    m.moveEnabled && plan.moveType == MoveType.Attack && m.attackEnabled && (plan.card.Hero? || plan.card.Unit?)
  }

  /** A spell attacker is not one of its own targets (it is consumed at every target it hits). */
  predicate SpellApart(attacker: Card, targets: seq<Card>)
  {
    attacker.Spell? ==> forall t :: t in targets ==> t.Id() != attacker.Id()
  }

  /** A Skill resolves when the move stays enabled with skills enabled. */
  predicate SkillGate(plan: Plan, m: Move)
  {
    m.moveEnabled && plan.moveType == MoveType.Skill && m.skillsEnabled
  }

  /** What the damage step leaves when it runs to the end. */
  function StrikeEvents(plan: Plan, attacker: Card, m: Move, moves: map<CardId, Move>): seq<Event>
    requires Covers(moves, plan.targets)
  {
    if AttackGate(plan, m) then AttackEvents(plan.targets, moves)
    else if SkillGate(plan, m) then SkillEvents(plan.targets, moves, attacker, plan.assignment.skillIndex)
    else []
  }

  /** A trace between `start` and `start + events` adds only members of `events`. */
  lemma UnhookedPrefix(start: seq<Event>, trace: seq<Event>, events: seq<Event>)
    requires start <= trace && trace <= start + events
    requires forall e :: e in events ==> !e.Hooked?
    ensures forall k :: |start| <= k < |trace| ==> !trace[k].Hooked?
  {
    forall k | |start| <= k < |trace|
      ensures !trace[k].Hooked?
    {
      assert trace[k] == (start + events)[k] == events[k - |start|];
    }
  }

  /** The damage step never calls a hook: none of its records is a hook call. */
  lemma StrikeEventsUnhooked(plan: Plan, attacker: Card, m: Move, moves: map<CardId, Move>)
    requires Covers(moves, plan.targets)
    ensures forall e :: e in StrikeEvents(plan, attacker, m, moves) ==> !e.Hooked?
  {
    if !AttackGate(plan, m) && SkillGate(plan, m) {
      SkillEventsAreRecords(plan.targets, moves, attacker, plan.assignment.skillIndex);
    }
  }

  /** The Skill records of the first `n` targets begin the records of all of them. */
  /** A target whose move has skills disabled adds no records. */
  lemma SkillEventsSkip(targets: seq<Card>, moves: map<CardId, Move>, attacker: Card, skillIndex: int, i: nat)
    requires Covers(moves, targets) && i < |targets| && !moves[targets[i].Id()].skillsEnabled
    ensures SkillEvents(targets[..i + 1], moves, attacker, skillIndex) == SkillEvents(targets[..i], moves, attacker, skillIndex)
  {
    assert targets[..i + 1][..i] == targets[..i];
    assert SkillEvents(targets[..i + 1], moves, attacker, skillIndex)
        == SkillEvents(targets[..i], moves, attacker, skillIndex) + [];
  }

  /** Appending hook calls only leaves hook calls after the old records. */
  lemma HookedAfter(start: seq<Event>, events: seq<Event>)
    requires forall e :: e in events ==> e.Hooked?
    ensures forall k :: |start| <= k < |start + events| ==> (start + events)[k].Hooked?
  {
    forall k | |start| <= k < |start + events|
      ensures (start + events)[k].Hooked?
    {
      assert (start + events)[k] == events[k - |start|];
    }
  }

  /** Part of the records at target `i`, after those of the targets before it, is a prefix of all records; all of them are the records of the first `i + 1`. */
  lemma SkillPrefixAt(start: seq<Event>, events: seq<Event>, targets: seq<Card>, moves: map<CardId, Move>, attacker: Card, skillIndex: int, i: nat)
    requires Covers(moves, targets) && i < |targets|
    requires events <= SkillEventsAt(targets[i], moves[targets[i].Id()], attacker, skillIndex)
    ensures start + SkillEvents(targets[..i], moves, attacker, skillIndex) + events
         <= start + SkillEvents(targets, moves, attacker, skillIndex)
    ensures events == SkillEventsAt(targets[i], moves[targets[i].Id()], attacker, skillIndex) ==>
      start + SkillEvents(targets[..i], moves, attacker, skillIndex) + events
        == start + SkillEvents(targets[..i + 1], moves, attacker, skillIndex)
  {
    var done := SkillEvents(targets[..i], moves, attacker, skillIndex);
    var here := SkillEventsAt(targets[i], moves[targets[i].Id()], attacker, skillIndex);
    assert targets[..i + 1][..i] == targets[..i];
    assert SkillEvents(targets[..i + 1], moves, attacker, skillIndex) == done + here;
    AppendAssoc(start, done, events);
    AppendAssoc(start, done, here);
    PrefixAppend(start + done, events, here);
    SkillEventsPrefixAfter(start, targets, moves, attacker, skillIndex, i + 1);
    PrefixTrans(start + done + events, start + SkillEvents(targets[..i + 1], moves, attacker, skillIndex),
                start + SkillEvents(targets, moves, attacker, skillIndex));
  }

  /** The records of the first `n` targets, after `start`, are a prefix of those of all. */
  lemma SkillEventsPrefixAfter(start: seq<Event>, targets: seq<Card>, moves: map<CardId, Move>, attacker: Card, skillIndex: int, n: nat)
    requires Covers(moves, targets) && n <= |targets|
    ensures start + SkillEvents(targets[..n], moves, attacker, skillIndex) <= start + SkillEvents(targets, moves, attacker, skillIndex)
  {
    SkillEventsPrefix(targets, moves, attacker, skillIndex, n);
    PrefixAppend(start, SkillEvents(targets[..n], moves, attacker, skillIndex), SkillEvents(targets, moves, attacker, skillIndex));
  }

  lemma {:induction false} SkillEventsPrefix(targets: seq<Card>, moves: map<CardId, Move>, attacker: Card, skillIndex: int, n: nat)
    requires Covers(moves, targets) && n <= |targets|
    ensures SkillEvents(targets[..n], moves, attacker, skillIndex) <= SkillEvents(targets, moves, attacker, skillIndex)
    decreases |targets| - n
  {
    if n < |targets| {
      SkillEventsPrefix(targets, moves, attacker, skillIndex, n + 1);
      assert targets[..n + 1][..n] == targets[..n];
      var t := targets[n];
      assert SkillEvents(targets[..n + 1], moves, attacker, skillIndex)
          == SkillEvents(targets[..n], moves, attacker, skillIndex) + SkillEventsAt(t, moves[t.Id()], attacker, skillIndex);
    } else {
      assert targets[..n] == targets;
    }
  }

  /**
   * A record PerformMove may leave for its plan: damage only to a target, by Attack only
   * from a hero or unit and by Skill only when the skill deals power damage; a consumed
   * card only for a spell's Skill; effects attached only by a Skill and only to a target;
   * after-hook calls with the moves they are documented to receive.
   */
  predicate MoveRecord(e: Event, plan: Plan)
  {
    match e
    case Inflicted(id, _) =>
      && (exists t :: t in plan.targets && t.Id() == id)
      && (plan.moveType == MoveType.Attack ==> plan.card.Hero? || plan.card.Unit?)
      && (plan.moveType == MoveType.Skill ==> plan.card.DoesPowerDamage(plan.assignment.skillIndex))
    case Killed(id) => plan.moveType == MoveType.Skill && plan.card.Spell? && id == plan.card.Id()
    case EffectsAttached(id, _) => plan.moveType == MoveType.Skill && exists t :: t in plan.targets && t.Id() == id
    case Hooked(_, _, _, _, _) => AfterRecord(e, plan.card, plan.moveType)
  }

  /** `after` is `before` followed by records of the plan only. */
  predicate TraceExtends(before: seq<Event>, after: seq<Event>, plan: Plan)
  {
    && |before| <= |after| && after[..|before|] == before
    && forall i :: |before| <= i < |after| ==> MoveRecord(after[i], plan)
  }

  lemma TraceExtendsAppend(start: seq<Event>, mid: seq<Event>, events: seq<Event>, plan: Plan)
    requires TraceExtends(start, mid, plan)
    requires forall e :: e in events ==> MoveRecord(e, plan)
    ensures TraceExtends(start, mid + events, plan)
  {
    assert (mid + events)[..|start|] == mid[..|start|];
    forall i | |start| <= i < |mid + events|
      ensures MoveRecord((mid + events)[i], plan)
    {
      if i >= |mid| {
        assert (mid + events)[i] == events[i - |mid|];
      }
    }
  }

  /** What a Skill leaves at one target is a record of its plan. */
  lemma SkillEventsAtAreRecords(plan: Plan, attacker: Card, t: Card, move: Move)
    requires plan.moveType == MoveType.Skill && t in plan.targets && SameCard(attacker, plan.card)
    ensures forall e :: e in SkillEventsAt(t, move, attacker, plan.assignment.skillIndex) ==> MoveRecord(e, plan)
  {
    SameCardAgrees(attacker, plan.card, plan.assignment.skillIndex);
  }

  /**
   * A Skill's records over the first `n` targets, followed by a prefix of what it leaves
   * at the next one, are records of its plan.
   */
  lemma SkillTraceExtends(plan: Plan, attacker: Card, moves: map<CardId, Move>, n: nat, start: seq<Event>, events: seq<Event>)
    requires Covers(moves, plan.targets) && plan.moveType == MoveType.Skill && SameCard(attacker, plan.card)
    requires n <= |plan.targets|
    requires n < |plan.targets| ==>
      events <= SkillEventsAt(plan.targets[n], moves[plan.targets[n].Id()], attacker, plan.assignment.skillIndex)
    requires n == |plan.targets| ==> events == []
    ensures TraceExtends(start, start + SkillEvents(plan.targets[..n], moves, attacker, plan.assignment.skillIndex) + events, plan)
  {
    var si := plan.assignment.skillIndex;
    var prefix := plan.targets[..n];
    var done := SkillEvents(prefix, moves, attacker, si);
    SkillEventsAreRecords(prefix, moves, attacker, si);
    SameCardAgrees(attacker, plan.card, si);
    forall e | e in done
      ensures MoveRecord(e, plan)
    {
      assert SkillRecord(e, prefix, moves, attacker, si);
      if e.Inflicted? {
        var t :| t in prefix && t.Id() == e.target;
        assert t in plan.targets;
      } else if e.EffectsAttached? {
        var t :| t in prefix && t.Id() == e.target;
        assert t in plan.targets;
      }
    }
    if n < |plan.targets| {
      var t := plan.targets[n];
      SkillEventsAtAreRecords(plan, attacker, t, moves[t.Id()]);
      assert forall e :: e in events ==> e in SkillEventsAt(t, moves[t.Id()], attacker, si);
    }
    assert start[..|start|] == start;
    TraceExtendsAppend(start, start, done, plan);
    TraceExtendsAppend(start, start + done, events, plan);
  }

  lemma AppendAssoc<T>(a: seq<T>, b: seq<T>, c: seq<T>)
    ensures a + b + c == a + (b + c)
  {
  }

  /** The power damage and consumption records of a Skill hit that reaches its target. */
  ghost function SkillDamageEvents(t: Card, m: Move, attacker: Card, skillIndex: int): seq<Event>
  {
    (if attacker.DoesPowerDamage(skillIndex) then [Inflicted(t.Id(), m.damage)] else []) + KilledEvents(attacker)
  }

  ghost function KilledEvents(attacker: Card): seq<Event>
  {
    if attacker.Spell? then [Killed(attacker.Id())] else []
  }

  lemma PrefixTrans<T>(a: seq<T>, b: seq<T>, c: seq<T>)
    requires a <= b && b <= c
    ensures a <= c
  {
    assert c[..|b|] == b;
    assert b[..|a|] == a;
  }

  lemma PrefixAppend<T>(a: seq<T>, b: seq<T>, c: seq<T>)
    requires b <= c
    ensures a + b <= a + c
  {
    assert (a + c)[..|a + b|] == a + b;
  }

  lemma AfterRecordOfCopy(e: Event, a: Card, b: Card, moveType: MoveType)
    requires SameCard(a, b) && AfterRecord(e, a, moveType)
    ensures AfterRecord(e, b, moveType)
  {
    SameCardAgrees(a, b, 0);
  }

  /** The index of the first request aimed at the centre. */
  function FirstToCenter(requests: seq<P.CardToLay>): (r: Option<nat>)
    ensures r.Some? ==>
      && r.value < |requests| && requests[r.value].toCenter
      && forall j :: 0 <= j < r.value ==> !requests[j].toCenter
    ensures r.None? ==> forall j :: 0 <= j < |requests| ==> !requests[j].toCenter
  {
    if requests == [] then None
    else if requests[0].toCenter then Some(0)
    else match FirstToCenter(requests[1..])
      case None => None
      case Some(i) => Some(i + 1)
  }

  /** Set difference on a sequence: the distinct requests other than `x`, in first-seen order. */
  function Except(requests: seq<P.CardToLay>, x: P.CardToLay): (r: seq<P.CardToLay>)
    ensures forall q :: q in r <==> q in requests && q != x
    ensures forall i, j :: 0 <= i < j < |r| ==> r[i] != r[j]
  {
    if requests == [] then []
    else
      var init := requests[..|requests| - 1];
      var last := requests[|requests| - 1];
      assert requests == init + [last];
      var rest := Except(init, x);
      if last == x || last in rest then rest else rest + [last]
  }

  /** The position of the first occurrence of `q` in `s`. */
  function IndexOf(s: seq<P.CardToLay>, q: P.CardToLay): (i: nat)
    requires q in s
    ensures i < |s| && s[i] == q && forall j :: 0 <= j < i ==> s[j] != q
  {
    if s[0] == q then 0 else 1 + IndexOf(s[1..], q)
  }

  lemma {:induction false} IndexOfPrefix(s: seq<P.CardToLay>, t: seq<P.CardToLay>, q: P.CardToLay)
    requires q in s
    ensures q in s + t && IndexOf(s + t, q) == IndexOf(s, q)
  {
    if s[0] != q {
      assert (s + t)[1..] == s[1..] + t;
      IndexOfPrefix(s[1..], t, q);
    }
  }

  /**
   * Except keeps the requests in the order they are first seen: together with its
   * contract (exactly the requests other than `x`, none twice) this fixes its result.
   */
  lemma {:induction false} ExceptFirstSeenOrder(requests: seq<P.CardToLay>, x: P.CardToLay)
    ensures forall i, j :: 0 <= i < j < |Except(requests, x)| ==>
      IndexOf(requests, Except(requests, x)[i]) < IndexOf(requests, Except(requests, x)[j])
    decreases |requests|
  {
    if requests != [] {
      var init := requests[..|requests| - 1];
      var last := requests[|requests| - 1];
      assert requests == init + [last];
      var rest := Except(init, x);
      ExceptFirstSeenOrder(init, x);
      forall q | q in rest
        ensures IndexOf(requests, q) == IndexOf(init, q)
      {
        IndexOfPrefix(init, [last], q);
      }
      if last == x || last in rest {
        assert Except(requests, x) == rest;
        forall i, j | 0 <= i < j < |rest|
          ensures IndexOf(requests, rest[i]) < IndexOf(requests, rest[j])
        {
          assert rest[i] in rest && rest[j] in rest;
          assert IndexOf(init, rest[i]) < IndexOf(init, rest[j]);
        }
      } else {
        assert last !in init;
        var r := rest + [last];
        assert Except(requests, x) == r;
        forall i, j | 0 <= i < j < |r|
          ensures IndexOf(requests, r[i]) < IndexOf(requests, r[j])
        {
          assert r[i] == rest[i] && r[i] in rest;
          assert IndexOf(requests, r[i]) == IndexOf(init, r[i]) < |init|;
          if j == |r| - 1 {
            assert IndexOf(requests, r[j]) == |requests| - 1;
          } else {
            assert r[j] == rest[j] && r[j] in rest;
            assert IndexOf(init, rest[i]) < IndexOf(init, rest[j]);
          }
        }
      }
    }
  }

  class Game {
    const id: string
    const players: seq<P.Player>
    const hooks: Hooks
    var commonPool: Option<seq<Card>>
    var centerCard: Option<Card>
    var centerCardRoundsAlive: int
    var cardsLayOrderPerPlayer: seq<UserId>
    var roundSettings: RoundSettings
    var actionController: AC.Controller
    /** The round's battle sequence; the kinds and skills of its cards are read from here. */
    var cards: Option<seq<Card>>
    var cardIndex: nat
    /** Every after-hook and round hook call, damage, consumed spell and attached effect, in order. */
    var trace: seq<Event>

    /** The players are distinct objects. */
    predicate Valid()
    {
      P.Distinct(players)
    }

    constructor (id: string, players: seq<P.Player>, hooks: Hooks)
      requires P.Distinct(players)
      ensures Valid()
      ensures this.id == id && this.players == players && this.hooks == hooks
      ensures actionController == AC.SetNextExpectedAction([AC.StartGame], P.Ids(players))
      ensures commonPool.None? && centerCard.None? && centerCardRoundsAlive == 0
      ensures cards.None? && cardIndex == 0 && trace == [] && cardsLayOrderPerPlayer == []
      ensures roundSettings == RoundSettings({}, map[])
    {
      this.id := id;
      this.players := players;
      this.hooks := hooks;
      actionController := AC.SetNextExpectedAction([AC.StartGame], P.Ids(players));
      commonPool := None;
      centerCard := None;
      centerCardRoundsAlive := 0;
      cardsLayOrderPerPlayer := [];
      roundSettings := RoundSettings({}, map[]);
      cards := None;
      cardIndex := 0;
      trace := [];
    }

    predicate CanDo(a: AC.ActionName, user: Option<UserId>)
      reads this`actionController
    {
      AC.CanDo(actionController, a, user)
    }

    function PlayerIds(): seq<UserId>
    {
      P.Ids(players)
    }

    /** Some player has no hero or a hero without HP left. */
    predicate IsGameOverByHeroElimination()
      reads players
    {
      exists p :: p in players && (p.heroCard.None? || IsCardDead(p.heroCard.value))
    }

    /** The centre card has survived the limit of rounds. */
    predicate IsGameOverByCenterOccupied()
      reads this`centerCardRoundsAlive
    {
      centerCardRoundsAlive >= CenterCardRoundsLimit
    }

    predicate IsGameOver()
      reads this`centerCardRoundsAlive, players
    {
      IsGameOverByHeroElimination() || IsGameOverByCenterOccupied()
    }

    /** A round is ongoing while the cursor is inside the battle sequence and the game is not over. */
    predicate IsRoundOngoing()
      reads this`cards, this`cardIndex, this`centerCardRoundsAlive, players
    {
      cards.Some? && cardIndex < |cards.value| && !IsGameOver()
    }

    /** A card is dead when some player's dead deck holds a card with its id. */
    predicate IsDead(c: Card)
      reads players
    {
      exists p, d :: p in players && d in p.deadDeck && d.Id() == c.Id()
    }

    /** Some Hero among `targets` is out of HP in the copy of one of the players. */
    predicate HeroTargetDead(targets: seq<Card>)
      reads players
    {
      exists t, p :: t in targets && p in players && t.Hero? && p.IsCardDead(t.Id())
    }

    /** The controller expects exactly `next`, from nobody in particular. */
    predicate ExpectsOnly(next: AC.ActionName)
      reads this`actionController
    {
      actionController == AC.SetNextExpectedAction([next])
    }

    /**
     * After a resolved move the game ends (it is over, or a Hero target died), the round
     * finishes (it is no longer ongoing), or the next move is due (the round goes on).
     */
    predicate MovedOn(targets: seq<Card>)
      reads this`actionController, this`cards, this`cardIndex, this`centerCardRoundsAlive, players
    {
      || (ExpectsOnly(AC.FinishGame) && (IsGameOver() || HeroTargetDead(targets)))
      || (ExpectsOnly(AC.FinishRound) && !IsRoundOngoing())
      || (ExpectsOnly(AC.PerformMove) && IsRoundOngoing())
    }

    /** The centre counter kept its value `before` or was reset because the centre card was a target. */
    predicate CounterAfter(plan: Plan, before: int)
      reads this`centerCardRoundsAlive, this`centerCard
    {
      || centerCardRoundsAlive == before
      || (centerCardRoundsAlive == 0 && centerCard.Some? && exists t :: t in plan.targets && t.Id() == centerCard.value.Id())
    }

    /**
     * Target `i` of the plan is the centre card and its holder's copy is dead; under a
     * Skill a target whose move has skills disabled is never hit and never counts.
     */
    predicate FellAt(plan: Plan, moves: map<CardId, Move>, holders: seq<Option<P.Player>>, i: int)
      requires 0 <= i < |plan.targets| && |holders| == |plan.targets| && Covers(moves, plan.targets)
      requires holders[i].Some? ==> holders[i].value in players
      reads this`centerCard, players
    {
      && centerCard.Some? && plan.targets[i].Id() == centerCard.value.Id()
      && (plan.moveType == MoveType.Skill ==> moves[plan.targets[i].Id()].skillsEnabled)
      && holders[i].Some? && holders[i].value.IsCardDead(plan.targets[i].Id())
    }

    /** One of the first `n` targets is a centre card that fell. */
    predicate CenterFell(plan: Plan, moves: map<CardId, Move>, holders: seq<Option<P.Player>>, n: int)
      requires 0 <= n <= |plan.targets| && |holders| == |plan.targets| && Covers(moves, plan.targets)
      requires forall k :: 0 <= k < |holders| && holders[k].Some? ==> holders[k].value in players
      reads this`centerCard, players
    {
      exists i :: 0 <= i < n && FellAt(plan, moves, holders, i)
    }

    /** StartGame: each expected player confirms; then the pool is dealt. */
    method StartGame(playerId: UserId) returns (r: bool)
      modifies this`actionController
      ensures r == old(CanDo(AC.StartGame, Some(playerId)))
      ensures !r ==> actionController == old(actionController)
      ensures r ==> actionController == AC.SetPlayerDoneOrNextExpectedAction(old(actionController), playerId, [AC.TakeCardsToCommonPool])
    {
      if !CanDo(AC.StartGame, Some(playerId)) {
        return false;
      }
      actionController := AC.SetPlayerDoneOrNextExpectedAction(actionController, playerId, [AC.TakeCardsToCommonPool]);
      return true;
    }

    /**
     * TakeCardsToCommonPool: every player shuffles the idle deck (into `shuffled[i]`) and
     * gives its first half to the common pool; then every player takes cards to hand.
     */
    method TakeCardsToCommonPool(shuffled: seq<seq<Card>>) returns (r: bool)
      requires Valid() && |shuffled| == |players|
      requires forall i :: 0 <= i < |players| ==> multiset(shuffled[i]) == multiset(players[i].idleDeck)
      modifies this`commonPool, this`actionController, players`idleDeck
      ensures r == old(CanDo(AC.TakeCardsToCommonPool, None))
      ensures !r ==> commonPool == old(commonPool) && actionController == old(actionController) && unchanged(players)
      ensures r ==> commonPool == if |players| == 0 then None else Some(P.ConcatHalves(shuffled))
      ensures r ==> forall i :: 0 <= i < |players| ==> players[i].idleDeck == shuffled[i][|P.Half(shuffled[i])|..]
      ensures r ==> actionController == AC.SetNextExpectedAction([AC.TakeCardsToHand], PlayerIds())
    {
      if !CanDo(AC.TakeCardsToCommonPool, None) {
        return false;
      }
      commonPool := P.ShuffleAllAndTakeHalfCards(players, shuffled);
      actionController := AC.SetNextExpectedAction([AC.TakeCardsToHand], PlayerIds());
      return true;
    }

    /** Takes one card, chosen at random, out of the common pool; nothing when it is empty. */
    method TakeFromCommonPool() returns (c: Option<Card>)
      requires commonPool.Some?
      modifies this`commonPool
      ensures commonPool.Some?
      ensures c.None? <==> old(commonPool.value) == []
      ensures c.None? ==> commonPool == old(commonPool)
      ensures c.Some? ==> multiset(commonPool.value) + multiset{c.value} == old(multiset(commonPool.value))
    {
      var pool := commonPool.value;
      if pool == [] {
        return None;
      }
      var i :| 0 <= i < |pool|;
      assert pool == pool[..i] + [pool[i]] + pool[i + 1..];
      commonPool := Some(pool[..i] + pool[i + 1..]);
      return Some(pool[i]);
    }

    /** The cards of a hand, an idle deck and the pool, counted together. */
    static function Stock(hand: seq<Card>, idle: seq<Card>, pool: Option<seq<Card>>): multiset<Card>
    {
      multiset(hand) + multiset(idle) + (if pool.Some? then multiset(pool.value) else multiset{})
    }

    /**
     * TakeCardsToHand: the player takes one card per request, from the common pool or
     * from the own idle deck; once everybody has, the lay-down order is computed. An
     * unknown player or a missing pool fails at the first request that needs it; for an
     * unknown player a first request from an existing pool still draws its card, which is
     * then lost.
     */
    method TakeCardsToHand(playerId: UserId, requests: seq<CardToTake>) returns (r: Outcome)
      modifies this`commonPool, this`actionController, players`handDeck, players`idleDeck
      ensures r.Returned? || r == Threw(NullReference)
      ensures !old(CanDo(AC.TakeCardsToHand, Some(playerId))) ==>
        r == Returned(false) && commonPool == old(commonPool) && actionController == old(actionController) && unchanged(players)
      ensures old(CanDo(AC.TakeCardsToHand, Some(playerId))) && PlayerOfId(players, playerId).None? ==>
        && unchanged(players)
        && (r == Threw(NullReference) <==> |requests| > 0)
        && (r.Threw? ==> actionController == old(actionController))
        && (commonPool.Some? <==> old(commonPool).Some?)
        && (|requests| > 0 && requests[0].source == CommonPool && old(commonPool).Some? && old(commonPool).value != [] ==>
              |commonPool.value| + 1 == |old(commonPool).value| && multiset(commonPool.value) <= multiset(old(commonPool).value))
        && (!(|requests| > 0 && requests[0].source == CommonPool && old(commonPool).Some? && old(commonPool).value != []) ==>
              commonPool == old(commonPool))
      ensures old(CanDo(AC.TakeCardsToHand, Some(playerId))) && PlayerOfId(players, playerId).Some? ==>
        var p := PlayerOfId(players, playerId).value;
        && (r == Threw(NullReference) <==> old(commonPool).None? && exists q :: q in requests && q.source == CommonPool)
        && (commonPool.Some? <==> old(commonPool).Some?)
        && |p.handDeck| <= old(|p.handDeck|) + |requests|
        && Stock(p.handDeck, p.idleDeck, commonPool) == old(Stock(p.handDeck, p.idleDeck, commonPool))
        && (r.Threw? ==> actionController == old(actionController))
      ensures old(CanDo(AC.TakeCardsToHand, Some(playerId))) && r == Returned(true) ==>
        actionController == AC.SetPlayerDoneOrNextExpectedAction(old(actionController), playerId, [AC.CalculateLayDownOrderPerPlayer])
      ensures forall q :: q in players && Some(q) != PlayerOfId(players, playerId) ==> unchanged(q)
    {
      if !CanDo(AC.TakeCardsToHand, Some(playerId)) {
        return Returned(false);
      }
      var found := PlayerOfId(players, playerId);
      if found.None? && |requests| > 0 {
        if requests[0].source == CommonPool && commonPool.Some? {
          var lost := TakeFromCommonPool();
        }
        return Threw(NullReference);
      }
      if found.Some? {
        var ok := TakeAll(found.value, requests);
        if !ok {
          return Threw(NullReference);
        }
      }
      actionController := AC.SetPlayerDoneOrNextExpectedAction(actionController, playerId, [AC.CalculateLayDownOrderPerPlayer]);
      return Returned(true);
    }

    /** Every request in order, stopping at the first one that needs a missing pool. */
    method TakeAll(player: P.Player, requests: seq<CardToTake>) returns (ok: bool)
      modifies this`commonPool, player`handDeck, player`idleDeck
      ensures ok <==> !(old(commonPool).None? && exists q :: q in requests && q.source == CommonPool)
      ensures commonPool.Some? <==> old(commonPool).Some?
      ensures |player.handDeck| <= old(|player.handDeck|) + |requests|
      ensures Stock(player.handDeck, player.idleDeck, commonPool) == old(Stock(player.handDeck, player.idleDeck, commonPool))
    {
      for k := 0 to |requests|
        invariant commonPool.Some? <==> old(commonPool).Some?
        invariant |player.handDeck| <= old(|player.handDeck|) + k
        invariant Stock(player.handDeck, player.idleDeck, commonPool) == old(Stock(player.handDeck, player.idleDeck, commonPool))
        invariant old(commonPool).None? ==> forall j :: 0 <= j < k ==> requests[j].source != CommonPool
      {
        ok := TakeOne(player, requests[k]);
        if !ok {
          assert requests[k] in requests;
          return false;
        }
      }
      return true;
    }

    /** One request: a card from the common pool (none in a missing pool) or from the own idle deck. */
    method TakeOne(player: P.Player, request: CardToTake) returns (ok: bool)
      modifies this`commonPool, player`handDeck, player`idleDeck
      ensures ok <==> !(request.source == CommonPool && old(commonPool).None?)
      ensures !ok ==> commonPool == old(commonPool) && unchanged(player)
      ensures commonPool.Some? <==> old(commonPool).Some?
      ensures |player.handDeck| <= old(|player.handDeck|) + 1
      ensures Stock(player.handDeck, player.idleDeck, commonPool) == old(Stock(player.handDeck, player.idleDeck, commonPool))
    {
      if request.source == CommonPool {
        if commonPool.None? {
          return false;
        }
        var c := TakeFromCommonPool();
        player.AddCardToHand(c);
      } else {
        player.TakeCardToHand();
      }
      return true;
    }

    /** CalculateLayDownOrderPerPlayer: the players lay down by descending hero speed, strictly in turn. */
    method CalculateLayDownOrderPerPlayer() returns (r: bool)
      modifies this`cardsLayOrderPerPlayer, this`actionController
      ensures r == old(CanDo(AC.CalculateLayDownOrderPerPlayer, None))
      ensures !r ==> cardsLayOrderPerPlayer == old(cardsLayOrderPerPlayer) && actionController == old(actionController)
      ensures r ==> cardsLayOrderPerPlayer == P.Ids(P.GetPlayersOrderedByHeroSpeed(players))
      ensures r ==> actionController == AC.SetNextExpectedAction([AC.LayCardsToBattle], cardsLayOrderPerPlayer, true)
    {
      if !CanDo(AC.CalculateLayDownOrderPerPlayer, None) {
        return false;
      }
      cardsLayOrderPerPlayer := P.Ids(P.GetPlayersOrderedByHeroSpeed(players));
      actionController := AC.SetNextExpectedAction([AC.LayCardsToBattle], cardsLayOrderPerPlayer, true);
      return true;
    }

    /**
     * LayCardsToBattle: with a centre card in play, the first request aimed at the centre
     * puts that hand card in the centre and restarts the survival count, even when the
     * player then refuses the remaining requests; once everybody has laid, dice are played.
     */
    method LayCardsToBattle(playerId: UserId, requests: seq<P.CardToLay>) returns (r: Outcome)
      modifies this`centerCard, this`centerCardRoundsAlive, this`actionController, players`handDeck, players`heroSlots
      ensures !old(CanDo(AC.LayCardsToBattle, Some(playerId))) ==>
        && r == Returned(false) && centerCard == old(centerCard) && centerCardRoundsAlive == old(centerCardRoundsAlive)
        && actionController == old(actionController) && unchanged(players)
      ensures old(CanDo(AC.LayCardsToBattle, Some(playerId))) && PlayerOfId(players, playerId).None? ==>
        && r == Threw(NullReference) && centerCard == old(centerCard) && centerCardRoundsAlive == old(centerCardRoundsAlive)
        && actionController == old(actionController) && unchanged(players)
      ensures old(CanDo(AC.LayCardsToBattle, Some(playerId))) && PlayerOfId(players, playerId).Some? ==>
        var toCenter := FirstToCenter(requests);
        var p := PlayerOfId(players, playerId).value;
        var laid := if old(centerCard).Some? && toCenter.Some? then Except(requests, requests[toCenter.value]) else requests;
        var hand := if old(centerCard).Some? && toCenter.Some?
                    then P.RemoveFirst(old(p.handDeck), requests[toCenter.value].sourceCardId) else old(p.handDeck);
        && (old(centerCard).Some? && toCenter.Some? ==>
              && centerCard == P.Find(old(p.handDeck), requests[toCenter.value].sourceCardId)
              && centerCardRoundsAlive == 0)
        && (old(centerCard).None? || toCenter.None? ==>
              centerCard == old(centerCard) && centerCardRoundsAlive == old(centerCardRoundsAlive))
        && (|laid| > 3 ==> r == Returned(false))
        && (|laid| <= 3 && p.heroCard.None? && |laid| > 0 ==> r == Threw(NullReference))
        && (r != Returned(true) ==> p.handDeck == hand && p.heroSlots == old(p.heroSlots))
        && (|laid| <= 3 && (p.heroCard.Some? || |laid| == 0) ==>
              var forHero := if p.heroCard.Some? then P.CardsForHero(laid, p.heroCard.value.Id()) else [];
              && r == Returned(true)
              && p.handDeck == P.WithoutIds(hand, forHero)
              && p.heroSlots == old(p.heroSlots) + forHero
              && actionController == AC.SetPlayerDoneOrNextExpectedAction(old(actionController), playerId, [AC.PlayDices], PlayerIds()))
        && (r != Returned(true) ==> actionController == old(actionController))
      ensures forall q :: q in players && Some(q) != PlayerOfId(players, playerId) ==> unchanged(q)
    {
      if !CanDo(AC.LayCardsToBattle, Some(playerId)) {
        return Returned(false);
      }
      var found := PlayerOfId(players, playerId);
      if found.None? {
        return Threw(NullReference);
      }
      var player := found.value;
      var lay := PlaceCenterCard(player, requests);
      r := player.LayCardsToBattle(lay);
      if r != Returned(true) {
        return r;
      }
      actionController := AC.SetPlayerDoneOrNextExpectedAction(actionController, playerId, [AC.PlayDices], PlayerIds());
      return Returned(true);
    }

    /**
     * The centre step of LayCardsToBattle: with a centre card in play, the first request
     * aimed at the centre moves that hand card to the centre and restarts the count; the
     * other requests are what remains to lay.
     */
    method PlaceCenterCard(player: P.Player, requests: seq<P.CardToLay>) returns (lay: seq<P.CardToLay>)
      modifies this`centerCard, this`centerCardRoundsAlive, player`handDeck
      ensures var toCenter := FirstToCenter(requests);
        if old(centerCard).Some? && toCenter.Some? then
          && centerCard == P.Find(old(player.handDeck), requests[toCenter.value].sourceCardId)
          && centerCardRoundsAlive == 0
          && lay == Except(requests, requests[toCenter.value])
          && player.handDeck == P.RemoveFirst(old(player.handDeck), requests[toCenter.value].sourceCardId)
        else
          && centerCard == old(centerCard) && centerCardRoundsAlive == old(centerCardRoundsAlive)
          && lay == requests && player.handDeck == old(player.handDeck)
    {
      lay := requests;
      if centerCard.Some? {
        var toCenter := FirstToCenter(requests);
        if toCenter.Some? {
          var cardToCenter := requests[toCenter.value];
          centerCard := player.TakeCardFromHand(cardToCenter.sourceCardId);
          lay := Except(requests, cardToCenter);
          centerCardRoundsAlive := 0;
        }
      }
    }

    /** PlayDices: the player rolls (`rolled`); once everybody has, each may replay or pass. */
    method PlayDices(playerId: UserId, rolled: seq<DiceOutcome>) returns (r: Outcome)
      modifies this`actionController, players`diceOutcomesToAssign
      ensures !old(CanDo(AC.PlayDices, Some(playerId))) ==>
        r == Returned(false) && actionController == old(actionController) && unchanged(players)
      ensures old(CanDo(AC.PlayDices, Some(playerId))) && PlayerOfId(players, playerId).None? ==>
        r == Threw(NullReference) && actionController == old(actionController) && unchanged(players)
      ensures old(CanDo(AC.PlayDices, Some(playerId))) && PlayerOfId(players, playerId).Some? ==>
        && r == Returned(true)
        && PlayerOfId(players, playerId).value.diceOutcomesToAssign == Some(rolled)
        && actionController == AC.SetPlayerDoneOrNextExpectedAction(old(actionController), playerId,
             [AC.ReplayDices, AC.PassReplayDices], PlayerIds())
      ensures forall q :: q in players && Some(q) != PlayerOfId(players, playerId) ==> unchanged(q)
    {
      if !CanDo(AC.PlayDices, Some(playerId)) {
        return Returned(false);
      }
      var found := PlayerOfId(players, playerId);
      if found.None? {
        return Threw(NullReference);
      }
      found.value.PlayDices(rolled);
      actionController := AC.SetPlayerDoneOrNextExpectedAction(actionController, playerId,
                            [AC.ReplayDices, AC.PassReplayDices], PlayerIds());
      return Returned(true);
    }

    /** PassReplayDices: keeps the roll; once everybody has decided, dice are assigned. */
    method PassReplayDices(playerId: UserId) returns (r: bool)
      modifies this`actionController
      ensures r == old(CanDo(AC.PassReplayDices, Some(playerId)))
      ensures !r ==> actionController == old(actionController)
      ensures r ==> actionController == AC.SetPlayerDoneOrNextExpectedAction(old(actionController), playerId,
                      [AC.AssignDiceToCard, AC.ConfirmAssignDicesToCards], PlayerIds())
    {
      if !CanDo(AC.PassReplayDices, Some(playerId)) {
        return false;
      }
      actionController := AC.SetPlayerDoneOrNextExpectedAction(actionController, playerId,
                            [AC.AssignDiceToCard, AC.ConfirmAssignDicesToCards], PlayerIds());
      return true;
    }

    /** ReplayDices: rolls again (`rolled` is the new roll); once everybody has decided, dice are assigned. */
    method ReplayDices(playerId: UserId, n: int, rolled: seq<DiceOutcome>) returns (r: Outcome)
      modifies this`actionController, players`diceOutcomesToAssign
      ensures !old(CanDo(AC.ReplayDices, Some(playerId))) ==>
        r == Returned(false) && actionController == old(actionController) && unchanged(players)
      ensures old(CanDo(AC.ReplayDices, Some(playerId))) && PlayerOfId(players, playerId).None? ==>
        r == Threw(NullReference) && actionController == old(actionController) && unchanged(players)
      ensures old(CanDo(AC.ReplayDices, Some(playerId))) && PlayerOfId(players, playerId).Some? ==>
        && r == Returned(true)
        && PlayerOfId(players, playerId).value.diceOutcomesToAssign == Some(rolled)
        && actionController == AC.SetPlayerDoneOrNextExpectedAction(old(actionController), playerId,
             [AC.AssignDiceToCard, AC.ConfirmAssignDicesToCards], PlayerIds())
      ensures forall q :: q in players && Some(q) != PlayerOfId(players, playerId) ==> unchanged(q)
    {
      if !CanDo(AC.ReplayDices, Some(playerId)) {
        return Returned(false);
      }
      var found := PlayerOfId(players, playerId);
      if found.None? {
        return Threw(NullReference);
      }
      found.value.PlayDices(rolled);
      actionController := AC.SetPlayerDoneOrNextExpectedAction(actionController, playerId,
                            [AC.AssignDiceToCard, AC.ConfirmAssignDicesToCards], PlayerIds());
      return Returned(true);
    }

    /** AssignDiceToCard: a repeatable sub-action; it never moves the phase on. */
    method AssignDiceToCard(playerId: UserId, diceIndex: int, cardId: CardId) returns (r: Outcome)
      modifies players`cardAssignments
      ensures !old(CanDo(AC.AssignDiceToCard, Some(playerId))) ==> r == Returned(false) && unchanged(players)
      ensures old(CanDo(AC.AssignDiceToCard, Some(playerId))) && PlayerOfId(players, playerId).None? ==>
        r == Threw(NullReference) && unchanged(players)
      ensures old(CanDo(AC.AssignDiceToCard, Some(playerId))) && PlayerOfId(players, playerId).Some? ==>
        var p := PlayerOfId(players, playerId).value;
        && r == Returned(p.diceOutcomesToAssign.Some? && 0 <= diceIndex < |p.diceOutcomesToAssign.value|)
        && (r == Returned(true) ==>
              p.cardAssignments == old(p.cardAssignments)[cardId := old(p.AssignmentOf(cardId)).(
                diceOutcome := Some(p.diceOutcomesToAssign.value[diceIndex]), diceOutcomeIndex := diceIndex)])
        && (r == Returned(false) ==> p.cardAssignments == old(p.cardAssignments))
      ensures forall q :: q in players && Some(q) != PlayerOfId(players, playerId) ==> unchanged(q)
    {
      if !CanDo(AC.AssignDiceToCard, Some(playerId)) {
        return Returned(false);
      }
      var found := PlayerOfId(players, playerId);
      if found.None? {
        return Threw(NullReference);
      }
      var ok := found.value.AssignDiceToCard(diceIndex, cardId);
      return Returned(ok);
    }

    /** RemoveDiceFromCard: clears the card's dice; no controller state ever lists this action. */
    method RemoveDiceFromCard(playerId: UserId, cardId: CardId) returns (r: Outcome)
      modifies players`cardAssignments
      ensures !old(CanDo(AC.RemoveDiceFromCard, Some(playerId))) ==> r == Returned(false) && unchanged(players)
      ensures old(CanDo(AC.RemoveDiceFromCard, Some(playerId))) ==>
        r == (if PlayerOfId(players, playerId).None? then Threw(NullReference) else Returned(true))
      ensures r == Returned(true) ==>
        var p := PlayerOfId(players, playerId).value;
        && (cardId in old(p.cardAssignments) ==>
              p.cardAssignments == old(p.cardAssignments)[cardId :=
                old(p.cardAssignments)[cardId].(diceOutcome := None, diceOutcomeIndex := -1)])
        && (cardId !in old(p.cardAssignments) ==> p.cardAssignments == old(p.cardAssignments))
      ensures forall q :: q in players && Some(q) != PlayerOfId(players, playerId) ==> unchanged(q)
    {
      if !CanDo(AC.RemoveDiceFromCard, Some(playerId)) {
        return Returned(false);
      }
      var found := PlayerOfId(players, playerId);
      if found.None? {
        return Threw(NullReference);
      }
      found.value.RemoveDiceFromCard(cardId);
      return Returned(true);
    }

    /**
     * ConfirmAssignDicesToCards: completes the dice assignment for the player and, once
     * everybody has, opens skill and target choice. Unlike every other action it does not
     * ask the controller first.
     */
    method ConfirmAssignDicesToCards(playerId: UserId) returns (r: bool)
      modifies this`actionController
      ensures r
      ensures actionController == AC.SetPlayerDoneOrNextExpectedAction(old(actionController), playerId,
                [AC.ChooseCardSkill, AC.AssignCardTarget, AC.RemoveCardTarget, AC.ConfirmCardTargets], PlayerIds())
    {
      actionController := AC.SetPlayerDoneOrNextExpectedAction(actionController, playerId,
                            [AC.ChooseCardSkill, AC.AssignCardTarget, AC.RemoveCardTarget, AC.ConfirmCardTargets], PlayerIds());
      return true;
    }

    method ChooseCardSkill(playerId: UserId, cardId: CardId, skillIndex: int) returns (r: Outcome)
      modifies players`cardAssignments
      ensures !old(CanDo(AC.ChooseCardSkill, Some(playerId))) ==> r == Returned(false) && unchanged(players)
      ensures old(CanDo(AC.ChooseCardSkill, Some(playerId))) ==>
        r == (if PlayerOfId(players, playerId).None? then Threw(NullReference) else Returned(true))
      ensures r == Returned(true) ==>
        var p := PlayerOfId(players, playerId).value;
        && cardId in p.cardAssignments && p.cardAssignments[cardId].skillIndex == skillIndex
        && p.cardAssignments == old(p.cardAssignments)[cardId := old(p.AssignmentOf(cardId)).(skillIndex := skillIndex)]
      ensures forall q :: q in players && Some(q) != PlayerOfId(players, playerId) ==> unchanged(q)
    {
      if !CanDo(AC.ChooseCardSkill, Some(playerId)) {
        return Returned(false);
      }
      var found := PlayerOfId(players, playerId);
      if found.None? {
        return Threw(NullReference);
      }
      found.value.ChooseCardSkill(cardId, skillIndex);
      return Returned(true);
    }

    method AssignCardTarget(playerId: UserId, cardId: CardId, targetCardId: CardId) returns (r: Outcome)
      modifies players`cardAssignments
      ensures !old(CanDo(AC.AssignCardTarget, Some(playerId))) ==> r == Returned(false) && unchanged(players)
      ensures old(CanDo(AC.AssignCardTarget, Some(playerId))) ==>
        r == (if PlayerOfId(players, playerId).None? then Threw(NullReference) else Returned(true))
      ensures r == Returned(true) ==>
        var p := PlayerOfId(players, playerId).value;
        var a := old(p.AssignmentOf(cardId));
        && cardId in p.cardAssignments && targetCardId in p.cardAssignments[cardId].targetCardIds
        && p.cardAssignments == old(p.cardAssignments)[cardId := a.(targetCardIds :=
             if targetCardId in a.targetCardIds then a.targetCardIds else a.targetCardIds + [targetCardId])]
      ensures forall q :: q in players && Some(q) != PlayerOfId(players, playerId) ==> unchanged(q)
    {
      if !CanDo(AC.AssignCardTarget, Some(playerId)) {
        return Returned(false);
      }
      var found := PlayerOfId(players, playerId);
      if found.None? {
        return Threw(NullReference);
      }
      found.value.AssignCardTarget(cardId, targetCardId);
      return Returned(true);
    }

    method RemoveCardTarget(playerId: UserId, cardId: CardId, targetCardId: CardId) returns (r: Outcome)
      modifies players`cardAssignments
      ensures !old(CanDo(AC.RemoveCardTarget, Some(playerId))) ==> r == Returned(false) && unchanged(players)
      ensures old(CanDo(AC.RemoveCardTarget, Some(playerId))) ==>
        r == (if PlayerOfId(players, playerId).None? then Threw(NullReference) else Returned(true))
      ensures r == Returned(true) ==>
        var p := PlayerOfId(players, playerId).value;
        && (cardId in p.cardAssignments ==> targetCardId !in p.cardAssignments[cardId].targetCardIds)
        && (cardId in old(p.cardAssignments) ==>
              var a := old(p.cardAssignments)[cardId];
              p.cardAssignments == old(p.cardAssignments)[cardId := a.(targetCardIds := P.RemoveId(a.targetCardIds, targetCardId))])
        && (cardId !in old(p.cardAssignments) ==> p.cardAssignments == old(p.cardAssignments))
      ensures forall q :: q in players && Some(q) != PlayerOfId(players, playerId) ==> unchanged(q)
    {
      if !CanDo(AC.RemoveCardTarget, Some(playerId)) {
        return Returned(false);
      }
      var found := PlayerOfId(players, playerId);
      if found.None? {
        return Threw(NullReference);
      }
      found.value.RemoveCardTarget(cardId, targetCardId);
      return Returned(true);
    }

    /** ConfirmCardTargets: once everybody has confirmed, the round starts. */
    method ConfirmCardTargets(playerId: UserId) returns (r: bool)
      modifies this`actionController
      ensures r == old(CanDo(AC.ConfirmCardTargets, Some(playerId)))
      ensures !r ==> actionController == old(actionController)
      ensures r ==> actionController == AC.SetPlayerDoneOrNextExpectedAction(old(actionController), playerId, [AC.StartRound])
    {
      if !CanDo(AC.ConfirmCardTargets, Some(playerId)) {
        return false;
      }
      actionController := AC.SetPlayerDoneOrNextExpectedAction(actionController, playerId, [AC.StartRound]);
      return true;
    }

    /** Fires the OnRoundStart hook of every effect of every combat card in `order`, in order. */
    method RunRoundStart(order: seq<Card>)
      modifies this`roundSettings, this`trace
      ensures roundSettings == FoldRoundStart(hooks, order, old(roundSettings))
      ensures trace == old(trace) + RoundHookEvents(OnRoundStart, order)
    {
      var rs, events := RoundStartHooks(hooks, order, roundSettings);
      roundSettings := rs;
      trace := trace + events;
    }
    /**
     * StartRound: a centre card in play ages by one round and, at the limit, ends the game
     * with the round left as it was; otherwise the battle sequence `order` (the battling
     * cards, ordered by speed) becomes the round, the cursor goes to its start, every
     * effect's OnRoundStart fires, and the moves begin.
     */
    method StartRound(order: seq<Card>) returns (r: bool)
      requires multiset(order) == multiset(BattlingCards(players))
      modifies this`centerCardRoundsAlive, this`cards, this`cardIndex, this`roundSettings, this`trace, this`actionController
      ensures r == old(CanDo(AC.StartRound, None))
      ensures !r ==> unchanged(this)
      ensures r ==> centerCardRoundsAlive == old(centerCardRoundsAlive) + (if centerCard.Some? then 1 else 0)
      ensures r && centerCard.Some? && centerCardRoundsAlive >= CenterCardRoundsLimit ==>
        && actionController == AC.SetNextExpectedAction([AC.FinishGame])
        && cards == old(cards) && cardIndex == old(cardIndex) && trace == old(trace) && roundSettings == old(roundSettings)
      ensures r && !(centerCard.Some? && centerCardRoundsAlive >= CenterCardRoundsLimit) ==>
        && cards == Some(order) && cardIndex == 0
        && roundSettings == FoldRoundStart(hooks, order, old(roundSettings))
        && trace == old(trace) + RoundHookEvents(OnRoundStart, order)
        && actionController == AC.SetNextExpectedAction([AC.PerformRound, AC.PerformMove])
    {
      if !CanDo(AC.StartRound, None) {
        return false;
      }
      if centerCard.Some? {
        centerCardRoundsAlive := centerCardRoundsAlive + 1;
        if centerCardRoundsAlive >= CenterCardRoundsLimit {
          actionController := AC.SetNextExpectedAction([AC.FinishGame]);
          return true;
        }
      }
      cardIndex := 0;
      cards := Some(order);
      RunRoundStart(order);
      actionController := AC.SetNextExpectedAction([AC.PerformRound, AC.PerformMove]);
      return true;
    }

    /**
     * How PerformMove's checks before resolution come out: the card under the cursor, its
     * holder, its assignment, the listed targets (every one a combat card), those not
     * excluded this round, the forced target when one is prioritized, the card's own
     * kind and its dice, in the order the move checks them.
     */
    function Prelude(chosen: CardId): (r: Prelim)
      reads this`cards, this`cardIndex, this`roundSettings, players
      ensures cards.None? ==> r == Fails(NullReference)
      ensures cards.Some? && cardIndex >= |cards.value| ==> r == Fails(IndexOutOfRange)
      ensures r.Proceeds? ==>
        var plan := r.plan;
        && cards.Some? && cardIndex < |cards.value| && plan.card == cards.value[cardIndex]
        && plan.card.IsCombat() && plan.owner in players && plan.owner.Has(plan.card.Id())
        && PlayerWithCard(players, plan.card.Id()) == Some(plan.owner)
        && plan.card.Id() in plan.owner.cardAssignments && plan.assignment == plan.owner.cardAssignments[plan.card.Id()]
        && plan.assignment.diceOutcome.Some?
        && (plan.moveType == MoveType.Skill <==> plan.assignment.diceOutcome.value.IsElement())
        && (forall t :: t in plan.targets ==> t.IsCombat())
        && (roundSettings.prioritized == map[] ==> forall t :: t in plan.targets <==>
              t in cards.value && t.Id() in plan.assignment.targetCardIds && t.Id().value !in roundSettings.notAllowedAsTarget)
        && (roundSettings.prioritized != map[] ==> forall t :: t in plan.targets <==>
              t in EnemyBattlingCards(players, plan.owner.id) && t.IsCombat() && t.Id() == chosen)
    {
      if cards.None? then Fails(NullReference)
      else if cardIndex >= |cards.value| then Fails(IndexOutOfRange)
      else
        var card := cards.value[cardIndex];
        var holder := PlayerWithCard(players, card.Id());
        if holder.None? then Fails(NullReference)
        else if card.Id() !in holder.value.cardAssignments then Fails(KeyNotFound)
        else
          var a := holder.value.cardAssignments[card.Id()];
          var listed := Listed(cards.value, a.targetCardIds);
          if exists c :: c in listed && !c.IsCombat() then Fails(InvalidCast)
          else
            var allowed := Allowed(listed, roundSettings.notAllowedAsTarget);
            if allowed == [] then Exits(true)
            else
              var targets := if roundSettings.prioritized != map[]
                             then WithId(EnemyCombatCards(players, holder.value.id), chosen)
                             else allowed;
              if !card.IsCombat() then Exits(true)
              else if a.diceOutcome.None? then Exits(false)
              else Proceeds(Plan(card, holder.value, a, targets,
                                 if a.diceOutcome.value.IsElement() then MoveType.Skill else MoveType.Attack))
    }

    /**
     * Merges each target's item statistics into the target's copy its holder keeps. With
     * distinct targets every held copy of a target that can carry items comes out as
     * WithItemModifiers of its old self and every other held copy as it was; cards of other
     * ids and players holding none of the targets are untouched.
     */
    method UseTargetItems(targets: seq<Card>, holders: seq<Option<P.Player>>)
      requires |holders| == |targets|
      requires forall i :: 0 <= i < |holders| && holders[i].Some? ==> holders[i].value in players
      modifies players
      ensures DistinctIds(targets) ==> forall i :: 0 <= i < |targets| && holders[i].Some? ==>
        holders[i].value.CardWithId(targets[i].Id()) == ItemsOn(targets[i], old(holders[i].value.CardWithId(targets[i].Id())))
      ensures forall q, id :: q in players && id !in Ids(targets) ==> q.CardWithId(id) == old(q.CardWithId(id))
      ensures forall q :: q in players && Some(q) !in holders ==> unchanged(q)
    {
      for i := 0 to |targets|
        invariant DistinctIds(targets) ==> forall j :: 0 <= j < i && holders[j].Some? ==>
          holders[j].value.CardWithId(targets[j].Id()) == ItemsOn(targets[j], old(holders[j].value.CardWithId(targets[j].Id())))
        invariant DistinctIds(targets) ==> forall j :: i <= j < |targets| && holders[j].Some? ==>
          holders[j].value.CardWithId(targets[j].Id()) == old(holders[j].value.CardWithId(targets[j].Id()))
        invariant forall q, id :: q in players && id !in Ids(targets) ==> q.CardWithId(id) == old(q.CardWithId(id))
        invariant forall q :: q in players && Some(q) !in holders ==> unchanged(q)
      {
        label Before:
        if targets[i].HasItems() && holders[i].Some? {
          holders[i].value.UpdateCard(targets[i].Id(), WithItemModifiers);
        }
        if DistinctIds(targets) {
          forall j | 0 <= j < |targets| && j != i && holders[j].Some?
            ensures holders[j].value.CardWithId(targets[j].Id()) == old@Before(holders[j].value.CardWithId(targets[j].Id()))
          {
            assert targets[j].Id() != targets[i].Id();
          }
        }
      }
    }

    /**
     * Each way out of Prelude once a card is under the cursor: no holder is a null
     * reference, no assignment a missing key, a listed non-combat card a failed cast, no
     * allowed target or a non-combat card a successful exit, no dice a failed one; only a
     * combat card with dice and an allowed target proceeds.
     */
    lemma PreludeExits(chosen: CardId)
      ensures cards.Some? && cardIndex < |cards.value| ==>
        var card := cards.value[cardIndex];
        var holder := PlayerWithCard(players, card.Id());
        && (holder.None? ==> Prelude(chosen) == Fails(NullReference))
        && (holder.Some? && card.Id() !in holder.value.cardAssignments ==> Prelude(chosen) == Fails(KeyNotFound))
        && (holder.Some? && card.Id() in holder.value.cardAssignments ==>
              var a := holder.value.cardAssignments[card.Id()];
              var nonCombatListed := exists c :: c in cards.value && c.Id() in a.targetCardIds && !c.IsCombat();
              var noneAllowed := forall c :: c in cards.value && c.Id() in a.targetCardIds ==>
                                   c.Id().value in roundSettings.notAllowedAsTarget;
              && (nonCombatListed ==> Prelude(chosen) == Fails(InvalidCast))
              && (!nonCombatListed && noneAllowed ==> Prelude(chosen) == Exits(true))
              && (!nonCombatListed && !noneAllowed && !card.IsCombat() ==> Prelude(chosen) == Exits(true))
              && (!nonCombatListed && !noneAllowed && card.IsCombat() && a.diceOutcome.None? ==> Prelude(chosen) == Exits(false))
              && (!nonCombatListed && !noneAllowed && card.IsCombat() && a.diceOutcome.Some? ==> Prelude(chosen).Proceeds?))
    {
      if cards.Some? && cardIndex < |cards.value| {
        var card := cards.value[cardIndex];
        var holder := PlayerWithCard(players, card.Id());
        if holder.Some? && card.Id() in holder.value.cardAssignments {
          var a := holder.value.cardAssignments[card.Id()];
          var listed := Listed(cards.value, a.targetCardIds);
          var allowed := Allowed(listed, roundSettings.notAllowedAsTarget);
          if allowed == [] {
            forall c | c in cards.value && c.Id() in a.targetCardIds
              ensures c.Id().value in roundSettings.notAllowedAsTarget
            {
              assert c in listed;
            }
          } else {
            var c := allowed[0];
            assert c in cards.value && c.Id() in a.targetCardIds && c.Id().value !in roundSettings.notAllowedAsTarget;
          }
        }
      }
    }

    /** A target's held copy after the items go in: only a card that can carry items changes. */
    static function ItemsOn(t: Card, copy: Option<Card>): Option<Card>
    {
      if t.HasItems() && copy.Some? then Some(WithItemModifiers(copy.value)) else copy
    }

    /** The copy after a card carrying items has their statistics taken out again. */
    static function ItemsOff(t: Card, copy: Option<Card>): Option<Card>
    {
      if t.HasItems() && copy.Some? then Some(WithoutItemModifiers(copy.value)) else copy
    }

    /**
     * The attacker's item statistics in, the before-hooks over the moves, and the item
     * statistics out again when the card-wide hooks disabled items. The moves are keyed by
     * target id, so a target listed twice is a duplicate key.
     */
    method PrepareMoves(plan: Plan, holders: seq<Option<P.Player>>) returns (m: Move, moves: map<CardId, Move>, duplicate: bool)
      requires plan.card.IsCombat() && plan.owner in players && |holders| == |plan.targets|
      requires forall i :: 0 <= i < |holders| && holders[i].Some? ==> holders[i].value in players
      modifies players
      ensures duplicate <==> !DistinctIds(plan.targets)
      ensures !duplicate ==> Covers(moves, plan.targets)
    {
      var card := plan.card;
      var si := plan.assignment.skillIndex;
      if card.HasItems() {
        plan.owner.UpdateCard(card.Id(), WithItemModifiers);
      }
      UseTargetItems(plan.targets, holders);
      var attacker := Live(Some(plan.owner), card);
      SameCardAgrees(attacker, card, si);
      m := RunBeforeMoveAtAll(hooks, attacker.Effects(), card.Id(), NewMove(CalculateDamage(attacker, None, plan.moveType, si), plan.moveType));
      moves, duplicate := BuildMoves(plan.targets, m.damage, plan.moveType);
      if duplicate {
        return;
      }
      moves := RunBeforeMoveAtSingleTarget(hooks, attacker.Effects(), card.Id(), plan.targets, moves);
      moves := RunBeforeReceive(hooks, plan.targets, LiveEffects(players, holders, plan.targets), card.Id(), moves);
      if card.HasItems() && !m.itemsEnabled {
        plan.owner.UpdateCard(card.Id(), WithoutItemModifiers);
      }
    }

    /** Under a Skill, a target whose move has skills disabled never counts as a fallen centre. */
    lemma SkipKeepsFell(plan: Plan, moves: map<CardId, Move>, holders: seq<Option<P.Player>>, i: nat)
      requires Covers(moves, plan.targets) && |holders| == |plan.targets| && i < |plan.targets|
      requires forall k :: 0 <= k < |holders| && holders[k].Some? ==> holders[k].value in players
      requires plan.moveType == MoveType.Skill && !moves[plan.targets[i].Id()].skillsEnabled
      ensures CenterFell(plan, moves, holders, i + 1) == CenterFell(plan, moves, holders, i)
    {
      if CenterFell(plan, moves, holders, i + 1) {
        var j :| 0 <= j < i + 1 && FellAt(plan, moves, holders, j);
        assert j != i;
      }
    }

    /** An Attack's hit on one target; a dead centre card restarts the centre count. */
    method AttackHit(t: Card, damage: int, holder: P.Player) returns (heroDown: bool)
      modifies this`centerCardRoundsAlive, holder
      ensures holder.CardWithId(t.Id()) == if old(holder.CardWithId(t.Id())).Some? then Some(Damaged(old(holder.CardWithId(t.Id())).value, damage)) else None
      ensures heroDown <==> t.Hero? && holder.IsCardDead(t.Id())
      ensures forall other :: other != t.Id() ==> holder.CardWithId(other) == old(holder.CardWithId(other))
      ensures centerCardRoundsAlive ==
        if !heroDown && holder.IsCardDead(t.Id()) && centerCard.Some? && centerCard.value.Id() == t.Id()
        then 0 else old(centerCardRoundsAlive)
    {
      holder.InflictDamage(damage, t.Id());
      heroDown := t.Hero? && holder.IsCardDead(t.Id());
      if !heroDown && holder.IsCardDead(t.Id()) && centerCard.Some? && centerCard.value.Id() == t.Id() {
        centerCardRoundsAlive := 0;
      }
    }

    /**
     * A Skill's hit on one target whose move keeps skills enabled: power damage, a spell
     * consumed, the death checks, then the skill's effects. `events` records what happened,
     * also when the hit stops early.
     */
    method SkillHit(plan: Plan, attacker: Card, t: Card, move: Move, holder: Option<P.Player>) returns (res: StrikeResult, events: seq<Event>)
      requires move.skillsEnabled && plan.moveType == MoveType.Skill && t in plan.targets && SameCard(attacker, plan.card)
      requires holder.Some? ==> holder.value in players
      requires plan.owner in players
      modifies this`centerCardRoundsAlive, players
      ensures events <= SkillEventsAt(t, move, attacker, plan.assignment.skillIndex)
      ensures res == Done ==> events == SkillEventsAt(t, move, attacker, plan.assignment.skillIndex)
      ensures res == HeroDown ==> t.Hero? && holder.Some? && holder.value.IsCardDead(t.Id())
      ensures res == NoHolder ==> holder.None?
      ensures forall q, other :: q in players && other != t.Id() && (attacker.Spell? ==> other != attacker.Id()) ==>
        q.CardWithId(other) == old(q.CardWithId(other))
      ensures centerCardRoundsAlive ==
        if res == Done && holder.Some? && holder.value.IsCardDead(t.Id()) && centerCard.Some? && centerCard.value.Id() == t.Id()
        then 0 else old(centerCardRoundsAlive)
    {
      var si := plan.assignment.skillIndex;
      ghost var attached := if move.effectsEnabled then [EffectsAttached(t.Id(), attacker.GetEffects(si))] else [];
      assert SkillEventsAt(t, move, attacker, si) == SkillDamageEvents(t, move, attacker, si) + attached;
      var held;
      held, events := SkillDamage(plan, attacker, t, move, holder);
      if !held {
        return NoHolder, events;
      }
      if holder.value.IsCardDead(t.Id()) {
        if t.Hero? {
          return HeroDown, events;
        }
        if centerCard.Some? && centerCard.value.Id() == t.Id() {
          centerCardRoundsAlive := 0;
        }
      }
      if move.effectsEnabled {
        var effects := attacker.GetEffects(si);
        AttachEffects(holder.value, t.Id(), effects);
        events := events + [EffectsAttached(t.Id(), effects)];
      }
      return Done, events;
    }

    /**
     * The first half of a Skill hit: power damage to the target's holder, if the skill has
     * any, then a spell's own consumption. A target nobody holds is noticed before the
     * damage, or after the consumption when there is no damage to deal.
     */
    method SkillDamage(plan: Plan, attacker: Card, t: Card, move: Move, holder: Option<P.Player>) returns (held: bool, events: seq<Event>)
      requires holder.Some? ==> holder.value in players
      requires plan.owner in players
      modifies players
      ensures held <==> holder.Some?
      ensures held ==> events == SkillDamageEvents(t, move, attacker, plan.assignment.skillIndex)
      ensures !held ==> events == if attacker.DoesPowerDamage(plan.assignment.skillIndex) then [] else KilledEvents(attacker)
      ensures forall q, other :: q in players && other != t.Id() && (attacker.Spell? ==> other != attacker.Id()) ==>
        q.CardWithId(other) == old(q.CardWithId(other))
    {
      var si := plan.assignment.skillIndex;
      events := [];
      if attacker.DoesPowerDamage(si) {
        if holder.None? {
          return false, events;
        }
        holder.value.InflictDamage(move.damage, t.Id());
        events := events + [Inflicted(t.Id(), move.damage)];
      }
      if attacker.Spell? {
        plan.owner.KillCard(attacker.Id());
        events := events + [Killed(attacker.Id())];
      }
      held := holder.Some?;
    }

    /** Appends the effects to the holder's copy of the card. */
    static method AttachEffects(holder: P.Player, cardId: CardId, effects: seq<Effect>)
      modifies holder
      ensures holder.CardWithId(cardId) ==
        if old(holder.CardWithId(cardId)).Some? then Some(old(holder.CardWithId(cardId)).value.WithMoreEffects(effects)) else None
      ensures forall other :: other != cardId ==> holder.CardWithId(other) == old(holder.CardWithId(other))
    {
      holder.UpdateCard(cardId, (c: Card) => c.WithMoreEffects(effects));
    }

    /**
     * The damage step. An Attack deals each target its move's damage; a Skill, at each
     * target whose move keeps skills enabled, deals power damage if the skill has any,
     * consumes a spell, and attaches the skill's effects where effects stay enabled. A dead
     * Hero target ends the step at once; a dead centre card restarts the centre count; a
     * target nobody holds fails the move.
     */
    method Strike(plan: Plan, attacker: Card, m: Move, moves: map<CardId, Move>, holders: seq<Option<P.Player>>)
      returns (res: StrikeResult)
      requires Covers(moves, plan.targets) && attacker.IsCombat() && SameCard(attacker, plan.card)
      requires plan.owner in players && |holders| == |plan.targets|
      requires forall i :: 0 <= i < |holders| && holders[i].Some? ==> holders[i].value in players
      modifies this`trace, this`centerCardRoundsAlive, players
      ensures TraceExtends(old(trace), trace, plan)
      ensures CounterAfter(plan, old(centerCardRoundsAlive))
      ensures !AttackGate(plan, m) && !SkillGate(plan, m) ==>
        res == Done && trace == old(trace) && centerCardRoundsAlive == old(centerCardRoundsAlive) && unchanged(players)
      ensures AttackGate(plan, m) && res == Done ==> trace == old(trace) + AttackEvents(plan.targets, moves)
      ensures SkillGate(plan, m) && res == Done ==>
        trace == old(trace) + SkillEvents(plan.targets, moves, attacker, plan.assignment.skillIndex)
      ensures res == HeroDown ==> HeroTargetDead(plan.targets)
      ensures res == NoHolder ==> exists i :: 0 <= i < |holders| && holders[i].None?
      ensures trace <= old(trace) + StrikeEvents(plan, attacker, m, moves)
      ensures res == Done && DistinctIds(plan.targets) && (AttackGate(plan, m) || (SkillGate(plan, m) && SpellApart(attacker, plan.targets))) ==>
        centerCardRoundsAlive == if CenterFell(plan, moves, holders, |plan.targets|) then 0 else old(centerCardRoundsAlive)
    {
      if AttackGate(plan, m) {
        res := AttackAll(plan, moves, holders);
      } else if SkillGate(plan, m) {
        res := SkillAll(plan, attacker, moves, holders);
      } else {
        res := Done;
      }
    }

    method AttackAll(plan: Plan, moves: map<CardId, Move>, holders: seq<Option<P.Player>>) returns (res: StrikeResult)
      requires Covers(moves, plan.targets) && plan.moveType == MoveType.Attack && (plan.card.Hero? || plan.card.Unit?)
      requires |holders| == |plan.targets|
      requires forall i :: 0 <= i < |holders| && holders[i].Some? ==> holders[i].value in players
      modifies this`trace, this`centerCardRoundsAlive, players
      ensures TraceExtends(old(trace), trace, plan)
      ensures CounterAfter(plan, old(centerCardRoundsAlive))
      ensures res == Done ==> trace == old(trace) + AttackEvents(plan.targets, moves)
      ensures trace <= old(trace) + AttackEvents(plan.targets, moves)
      ensures res == Done && DistinctIds(plan.targets) ==>
        centerCardRoundsAlive == if CenterFell(plan, moves, holders, |plan.targets|) then 0 else old(centerCardRoundsAlive)
      ensures res == HeroDown ==> HeroTargetDead(plan.targets)
      ensures res == NoHolder ==> exists i :: 0 <= i < |holders| && holders[i].None?
    {
      var targets := plan.targets;
      for i := 0 to |targets|
        invariant trace == old(trace) + AttackEvents(targets[..i], moves)
        invariant TraceExtends(old(trace), trace, plan)
        invariant CounterAfter(plan, old(centerCardRoundsAlive))
        invariant DistinctIds(targets) ==>
          centerCardRoundsAlive == if CenterFell(plan, moves, holders, i) then 0 else old(centerCardRoundsAlive)
      {
        if holders[i].None? {
          return NoHolder;
        }
        label Before:
        var heroDown := AttackStep(plan, moves, holders, i, old(trace));
        if DistinctIds(targets) {
          if old@Before(CenterFell(plan, moves, holders, i)) {
            var j :| 0 <= j < i && old@Before(FellAt(plan, moves, holders, j));
            assert FellAt(plan, moves, holders, j);
          }
        }
        if heroDown {
          assert AttackEvents(targets[..i + 1], moves) == AttackEvents(targets, moves)[..i + 1];
          return HeroDown;
        }
      }
      assert targets[..|targets|] == targets;
      return Done;
    }

    /** The Attack at target `i`, extending the records of the targets before it. */
    method AttackStep(plan: Plan, moves: map<CardId, Move>, holders: seq<Option<P.Player>>, i: nat, ghost start: seq<Event>)
      returns (heroDown: bool)
      requires Covers(moves, plan.targets) && plan.moveType == MoveType.Attack && (plan.card.Hero? || plan.card.Unit?)
      requires |holders| == |plan.targets| && i < |plan.targets| && holders[i].Some?
      requires forall k :: 0 <= k < |holders| && holders[k].Some? ==> holders[k].value in players
      requires trace == start + AttackEvents(plan.targets[..i], moves) && TraceExtends(start, trace, plan)
      modifies this`trace, this`centerCardRoundsAlive, holders[i].value
      ensures trace == start + AttackEvents(plan.targets[..i + 1], moves) && TraceExtends(start, trace, plan)
      ensures heroDown ==> HeroTargetDead(plan.targets)
      ensures !heroDown ==> centerCardRoundsAlive == if FellAt(plan, moves, holders, i) then 0 else old(centerCardRoundsAlive)
      ensures heroDown ==> centerCardRoundsAlive == old(centerCardRoundsAlive)
      ensures DistinctIds(plan.targets) ==> forall j :: 0 <= j < |plan.targets| && j != i ==>
        FellAt(plan, moves, holders, j) == old(FellAt(plan, moves, holders, j))
    {
      var t := plan.targets[i];
      var damage := moves[t.Id()].damage;
      var heroDown' := AttackHit(t, damage, holders[i].value);
      heroDown := heroDown';
      if DistinctIds(plan.targets) {
        forall j | 0 <= j < |plan.targets| && j != i
          ensures FellAt(plan, moves, holders, j) == old(FellAt(plan, moves, holders, j))
        {
          assert plan.targets[j].Id() != t.Id() && plan.targets[j] in plan.targets;
        }
      }
      assert plan.targets[..i + 1][..i] == plan.targets[..i];
      assert AttackEvents(plan.targets[..i + 1], moves) == AttackEvents(plan.targets[..i], moves) + [Inflicted(t.Id(), damage)];
      assert t in plan.targets;
      TraceExtendsAppend(start, trace, [Inflicted(t.Id(), damage)], plan);
      trace := trace + [Inflicted(t.Id(), damage)];
      if heroDown {
        assert holders[i].value in players;
      }
    }

    method SkillAll(plan: Plan, attacker: Card, moves: map<CardId, Move>, holders: seq<Option<P.Player>>) returns (res: StrikeResult)
      requires Covers(moves, plan.targets) && plan.moveType == MoveType.Skill && SameCard(attacker, plan.card)
      requires plan.owner in players && |holders| == |plan.targets|
      requires forall i :: 0 <= i < |holders| && holders[i].Some? ==> holders[i].value in players
      modifies this`trace, this`centerCardRoundsAlive, players
      ensures TraceExtends(old(trace), trace, plan)
      ensures CounterAfter(plan, old(centerCardRoundsAlive))
      ensures res == Done ==> trace == old(trace) + SkillEvents(plan.targets, moves, attacker, plan.assignment.skillIndex)
      ensures trace <= old(trace) + SkillEvents(plan.targets, moves, attacker, plan.assignment.skillIndex)
      ensures res == Done && DistinctIds(plan.targets) && SpellApart(attacker, plan.targets) ==>
        centerCardRoundsAlive == if CenterFell(plan, moves, holders, |plan.targets|) then 0 else old(centerCardRoundsAlive)
      ensures res == HeroDown ==> HeroTargetDead(plan.targets)
      ensures res == NoHolder ==> exists i :: 0 <= i < |holders| && holders[i].None?
    {
      var targets := plan.targets;
      var si := plan.assignment.skillIndex;
      for i := 0 to |targets|
        invariant trace == old(trace) + SkillEvents(targets[..i], moves, attacker, si)
        invariant CounterAfter(plan, old(centerCardRoundsAlive))
        invariant DistinctIds(targets) && SpellApart(attacker, targets) ==>
          centerCardRoundsAlive == if CenterFell(plan, moves, holders, i) then 0 else old(centerCardRoundsAlive)
      {
        res := SkillStep(plan, attacker, moves, holders, i, old(trace), old(centerCardRoundsAlive));
        if res != Done {
          return;
        }
      }
      assert targets[..|targets|] == targets;
      SkillTraceExtends(plan, attacker, moves, |targets|, old(trace), []);
      assert old(trace) + SkillEvents(targets, moves, attacker, si) + [] == trace;
      return Done;
    }

    /**
     * One turn of the Skill loop: nothing for a target whose move has skills disabled,
     * otherwise the Skill at target `i`; either way the loop's account of the records and
     * of the centre count now covers the first `i + 1` targets.
     */
    method SkillStep(plan: Plan, attacker: Card, moves: map<CardId, Move>, holders: seq<Option<P.Player>>, i: nat,
                     ghost start: seq<Event>, ghost counter: int)
      returns (res: StrikeResult)
      requires Covers(moves, plan.targets) && plan.moveType == MoveType.Skill && SameCard(attacker, plan.card)
      requires plan.owner in players && |holders| == |plan.targets| && i < |plan.targets|
      requires forall i :: 0 <= i < |holders| && holders[i].Some? ==> holders[i].value in players
      requires trace == start + SkillEvents(plan.targets[..i], moves, attacker, plan.assignment.skillIndex)
      requires CounterAfter(plan, counter)
      requires DistinctIds(plan.targets) && SpellApart(attacker, plan.targets) ==>
        centerCardRoundsAlive == if CenterFell(plan, moves, holders, i) then 0 else counter
      modifies this`trace, this`centerCardRoundsAlive, players
      ensures res == Done ==> trace == start + SkillEvents(plan.targets[..i + 1], moves, attacker, plan.assignment.skillIndex)
      ensures res != Done ==> TraceExtends(start, trace, plan)
      ensures res != Done ==> trace <= start + SkillEvents(plan.targets, moves, attacker, plan.assignment.skillIndex)
      ensures res == HeroDown ==> HeroTargetDead(plan.targets)
      ensures res == NoHolder ==> holders[i].None?
      ensures CounterAfter(plan, counter)
      ensures res == Done && DistinctIds(plan.targets) && SpellApart(attacker, plan.targets) ==>
        centerCardRoundsAlive == if CenterFell(plan, moves, holders, i + 1) then 0 else counter
    {
      if !moves[plan.targets[i].Id()].skillsEnabled {
        SkillEventsSkip(plan.targets, moves, attacker, plan.assignment.skillIndex, i);
        SkipKeepsFell(plan, moves, holders, i);
        return Done;
      }
      label Before:
      res := SkillAt(plan, attacker, moves, holders, i, start);
      if res == Done && DistinctIds(plan.targets) && SpellApart(attacker, plan.targets) {
        var t := plan.targets[i];
        forall j | 0 <= j < |plan.targets| && j != i
          ensures FellAt(plan, moves, holders, j) == old@Before(FellAt(plan, moves, holders, j))
        {
          assert plan.targets[j].Id() != t.Id() && plan.targets[j] in plan.targets;
        }
        if old@Before(CenterFell(plan, moves, holders, i)) {
          var j :| 0 <= j < i && old@Before(FellAt(plan, moves, holders, j));
          assert FellAt(plan, moves, holders, j);
        }
      }
      if centerCardRoundsAlive != old(centerCardRoundsAlive) {
        assert plan.targets[i] in plan.targets;
      }
    }

    /** The Skill at target `i`, extending the records of the targets before it. */
    method SkillAt(plan: Plan, attacker: Card, moves: map<CardId, Move>, holders: seq<Option<P.Player>>, i: nat, ghost start: seq<Event>)
      returns (res: StrikeResult)
      requires Covers(moves, plan.targets) && plan.moveType == MoveType.Skill && SameCard(attacker, plan.card)
      requires plan.owner in players && |holders| == |plan.targets| && i < |plan.targets|
      requires moves[plan.targets[i].Id()].skillsEnabled
      requires forall i :: 0 <= i < |holders| && holders[i].Some? ==> holders[i].value in players
      requires trace == start + SkillEvents(plan.targets[..i], moves, attacker, plan.assignment.skillIndex)
      modifies this`trace, this`centerCardRoundsAlive, players
      ensures res == Done ==> trace == start + SkillEvents(plan.targets[..i + 1], moves, attacker, plan.assignment.skillIndex)
      ensures res != Done ==> TraceExtends(start, trace, plan)
      ensures res != Done ==> trace <= start + SkillEvents(plan.targets, moves, attacker, plan.assignment.skillIndex)
      ensures res == HeroDown ==> HeroTargetDead(plan.targets)
      ensures res == NoHolder ==> holders[i].None?
      ensures forall q, other :: q in players && other != plan.targets[i].Id() && (attacker.Spell? ==> other != attacker.Id()) ==>
        q.CardWithId(other) == old(q.CardWithId(other))
      ensures centerCardRoundsAlive == if res == Done && FellAt(plan, moves, holders, i) then 0 else old(centerCardRoundsAlive)
    {
      var si := plan.assignment.skillIndex;
      var t := plan.targets[i];
      var move := moves[t.Id()];
      ghost var done := SkillEvents(plan.targets[..i], moves, attacker, si);
      var events;
      res, events := SkillHit(plan, attacker, t, move, holders[i]);
      SkillPrefixAt(start, events, plan.targets, moves, attacker, si, i);
      if res != Done {
        SkillTraceExtends(plan, attacker, moves, i, start, events);
      }
      trace := trace + events;
      if res == HeroDown {
        assert t in plan.targets && holders[i].value in players;
      }
      assert t in plan.targets;
    }

    /** Logs the after-hooks of the plan on the current copies; the trace stays a record of the plan. */
    method LogAfterHooks(plan: Plan, holders: seq<Option<P.Player>>, ghost start: seq<Event>)
      requires plan.card.IsCombat() && |holders| == |plan.targets|
      requires forall i :: 0 <= i < |holders| && holders[i].Some? ==> holders[i].value in players
      requires TraceExtends(start, trace, plan)
      modifies this`trace
      ensures TraceExtends(start, trace, plan)
      ensures trace == old(trace) + AfterEvents(Live(Some(plan.owner), plan.card), plan.targets,
                                                LiveEffects(players, holders, plan.targets), plan.moveType, plan.assignment.skillIndex)
    {
      var attacker := Live(Some(plan.owner), plan.card);
      SameCardAgrees(attacker, plan.card, 0);
      var effects := LiveEffects(players, holders, plan.targets);
      var events := AfterHooks(attacker, plan.targets, effects, plan.moveType, plan.assignment.skillIndex);
      AfterEventsAreRecords(attacker, plan.targets, effects, plan.moveType, plan.assignment.skillIndex);
      forall e | e in events
        ensures MoveRecord(e, plan)
      {
        AfterRecordOfCopy(e, attacker, plan.card, plan.moveType);
      }
      TraceExtendsAppend(start, trace, events, plan);
      trace := trace + events;
    }
    /**
     * Resolves a planned move: items, before-hooks, a duplicate-key check, the damage step,
     * after-hooks, and then the game, the round or the next move.
     */
    method Resolve(plan: Plan) returns (r: Outcome)
      requires plan.card.IsCombat() && plan.owner in players
      modifies this`trace, this`actionController, this`centerCardRoundsAlive, players
      ensures r == Threw(DuplicateKey) <==> !DistinctIds(plan.targets)
      ensures r.Threw? ==> r.fault == DuplicateKey || r.fault == NullReference
      ensures r == Threw(NullReference) ==>
        exists i :: 0 <= i < |plan.targets| && old(PlayerWithCard(players, plan.targets[i].Id())).None?
      ensures r.Threw? ==> actionController == old(actionController)
      ensures r.Returned? ==> r.ok
      ensures r.Returned? ==> MovedOn(plan.targets)
      ensures TraceExtends(old(trace), trace, plan)
      ensures CounterAfter(plan, old(centerCardRoundsAlive))
    {
      var holders := Holders(players, plan.targets);
      var m, moves, duplicate := PrepareMoves(plan, holders);
      if duplicate {
        return Threw(DuplicateKey);
      }
      var res;
      r, res := Engage(plan, m, moves, holders);
    }

    /**
     * Resolve once the move map is built: strike, log the after-move hooks, conclude. A
     * dead Hero target ends the game straight from the damage step, before any after-hook;
     * a target nobody holds fails the move; otherwise the damage step's records are
     * followed by hook calls only.
     */
    method Engage(plan: Plan, m: Move, moves: map<CardId, Move>, holders: seq<Option<P.Player>>)
      returns (r: Outcome, res: StrikeResult)
      requires Covers(moves, plan.targets) && plan.card.IsCombat()
      requires plan.owner in players && |holders| == |plan.targets|
      requires forall i :: 0 <= i < |holders| && holders[i].Some? ==> holders[i].value in players
      modifies this`trace, this`actionController, this`centerCardRoundsAlive, players
      ensures r.Threw? <==> res == NoHolder
      ensures r.Threw? ==> r == Threw(NullReference) && actionController == old(actionController)
      ensures r.Threw? ==> exists i :: 0 <= i < |holders| && holders[i].None?
      ensures r.Returned? ==> r.ok && MovedOn(plan.targets)
      ensures res == HeroDown ==> ExpectsOnly(AC.FinishGame) && HeroTargetDead(plan.targets)
      ensures res != Done ==> trace <= old(trace) + StrikeEvents(plan, old(Live(Some(plan.owner), plan.card)), m, moves)
      ensures res != Done ==> forall k :: |old(trace)| <= k < |trace| ==> !trace[k].Hooked?
      ensures res == Done ==>
        && old(trace) + StrikeEvents(plan, old(Live(Some(plan.owner), plan.card)), m, moves) <= trace
        && forall k :: |old(trace) + StrikeEvents(plan, old(Live(Some(plan.owner), plan.card)), m, moves)| <= k < |trace| ==>
             trace[k].Hooked?
      ensures TraceExtends(old(trace), trace, plan)
      ensures CounterAfter(plan, old(centerCardRoundsAlive))
    {
      var striker := Live(Some(plan.owner), plan.card);
      SameCardAgrees(striker, plan.card, 0);
      res := Strike(plan, striker, m, moves, holders);
      if res != Done {
        StrikeEventsUnhooked(plan, striker, m, moves);
        UnhookedPrefix(old(trace), trace, StrikeEvents(plan, striker, m, moves));
      }
      if res == HeroDown {
        actionController := AC.SetNextExpectedAction([AC.FinishGame]);
        return Returned(true), res;
      }
      if res == NoHolder {
        return Threw(NullReference), res;
      }
      r := FinishStrike(plan, holders, old(trace));
    }

    /** AfterStrike seen from Engage: a successful move whose new records are hook calls only. */
    method FinishStrike(plan: Plan, holders: seq<Option<P.Player>>, ghost start: seq<Event>) returns (r: Outcome)
      requires plan.card.IsCombat() && plan.owner in players && |holders| == |plan.targets|
      requires forall i :: 0 <= i < |holders| && holders[i].Some? ==> holders[i].value in players
      requires TraceExtends(start, trace, plan)
      modifies this`trace, this`actionController, plan.owner`heroCard, plan.owner`battlingDeck, plan.owner`handDeck,
               plan.owner`idleDeck, plan.owner`deadDeck
      ensures r == Returned(true) && MovedOn(plan.targets)
      ensures TraceExtends(start, trace, plan)
      ensures old(trace) <= trace && forall k :: |old(trace)| <= k < |trace| ==> trace[k].Hooked?
    {
      r := AfterStrike(plan, holders, start);
    }

    /** The after-move hooks, then the conclusion; everything logged is a hook call. */
    method AfterStrike(plan: Plan, holders: seq<Option<P.Player>>, ghost start: seq<Event>) returns (r: Outcome)
      requires plan.card.IsCombat() && plan.owner in players && |holders| == |plan.targets|
      requires forall i :: 0 <= i < |holders| && holders[i].Some? ==> holders[i].value in players
      requires TraceExtends(start, trace, plan)
      modifies this`trace, this`actionController, plan.owner`heroCard, plan.owner`battlingDeck, plan.owner`handDeck,
               plan.owner`idleDeck, plan.owner`deadDeck
      ensures r == Returned(true) && MovedOn(plan.targets)
      ensures TraceExtends(start, trace, plan)
      ensures old(trace) <= trace && forall k :: |old(trace)| <= k < |trace| ==> trace[k].Hooked?
      ensures trace == old(trace) + AfterEvents(old(Live(Some(plan.owner), plan.card)), plan.targets,
                                                old(LiveEffects(players, holders, plan.targets)), plan.moveType,
                                                plan.assignment.skillIndex)
      ensures old(IsGameOver()) ==> ExpectsOnly(AC.FinishGame) && unchanged(plan.owner)
      ensures !old(IsGameOver()) ==>
        if IsRoundOngoing() then ExpectsOnly(AC.PerformMove) else ExpectsOnly(AC.FinishRound)
      ensures !old(IsGameOver()) ==>
        plan.owner.CardWithId(plan.card.Id()) == ItemsOff(plan.card, old(plan.owner.CardWithId(plan.card.Id())))
      ensures forall other :: other != plan.card.Id() ==> plan.owner.CardWithId(other) == old(plan.owner.CardWithId(other))
      ensures !old(IsGameOver()) && plan.card.HasItems() ==>
        && plan.owner.battlingDeck == P.Apply(old(plan.owner.battlingDeck), plan.card.Id(), WithoutItemModifiers)
        && plan.owner.handDeck == P.Apply(old(plan.owner.handDeck), plan.card.Id(), WithoutItemModifiers)
        && plan.owner.idleDeck == P.Apply(old(plan.owner.idleDeck), plan.card.Id(), WithoutItemModifiers)
        && plan.owner.deadDeck == P.Apply(old(plan.owner.deadDeck), plan.card.Id(), WithoutItemModifiers)
      ensures !plan.card.HasItems() ==> unchanged(plan.owner)
    {
      ghost var hooks := AfterEvents(Live(Some(plan.owner), plan.card), plan.targets,
                                     LiveEffects(players, holders, plan.targets), plan.moveType, plan.assignment.skillIndex);
      AfterEventsAreRecords(Live(Some(plan.owner), plan.card), plan.targets, LiveEffects(players, holders, plan.targets),
                            plan.moveType, plan.assignment.skillIndex);
      HookedAfter(trace, hooks);
      LogAfterHooks(plan, holders, start);
      assert trace == old(trace) + hooks;
      r := Conclude(plan);
    }

    /**
     * After a resolved move: the game ends when it is over; otherwise the attacker's item
     * statistics come out again and the round goes on or finishes.
     */
    method Conclude(plan: Plan) returns (r: Outcome)
      requires plan.owner in players
      modifies this`actionController, plan.owner`heroCard, plan.owner`battlingDeck, plan.owner`handDeck,
               plan.owner`idleDeck, plan.owner`deadDeck
      ensures r == Returned(true)
      ensures old(IsGameOver()) ==> ExpectsOnly(AC.FinishGame) && unchanged(plan.owner)
      ensures !old(IsGameOver()) ==>
        if IsRoundOngoing() then ExpectsOnly(AC.PerformMove) else ExpectsOnly(AC.FinishRound)
      ensures !old(IsGameOver()) ==>
        plan.owner.CardWithId(plan.card.Id()) == ItemsOff(plan.card, old(plan.owner.CardWithId(plan.card.Id())))
      ensures forall other :: other != plan.card.Id() ==> plan.owner.CardWithId(other) == old(plan.owner.CardWithId(other))
      ensures !old(IsGameOver()) && plan.card.HasItems() ==>
        && plan.owner.battlingDeck == P.Apply(old(plan.owner.battlingDeck), plan.card.Id(), WithoutItemModifiers)
        && plan.owner.handDeck == P.Apply(old(plan.owner.handDeck), plan.card.Id(), WithoutItemModifiers)
        && plan.owner.idleDeck == P.Apply(old(plan.owner.idleDeck), plan.card.Id(), WithoutItemModifiers)
        && plan.owner.deadDeck == P.Apply(old(plan.owner.deadDeck), plan.card.Id(), WithoutItemModifiers)
      ensures !plan.card.HasItems() ==> unchanged(plan.owner)
      ensures MovedOn(plan.targets)
    {
      if IsGameOver() {
        actionController := AC.SetNextExpectedAction([AC.FinishGame]);
        return Returned(true);
      }
      if plan.card.HasItems() {
        plan.owner.UpdateCard(plan.card.Id(), WithoutItemModifiers);
      }
      if !IsRoundOngoing() {
        actionController := AC.SetNextExpectedAction([AC.FinishRound]);
      } else {
        actionController := AC.SetNextExpectedAction([AC.PerformMove]);
      }
      return Returned(true);
    }

    /**
     * PerformMove: resolves the card under the cursor. An admitted move always advances
     * the cursor when it points into the sequence; the checks before resolution fail or
     * return early exactly as Prelude says, leaving everything else as it was; a resolved
     * move leaves only records of its plan, and hands on to the end of the game, the end
     * of the round or the next move. `chosen` is the randomly picked prioritized target.
     */
    method PerformMove(chosen: CardId) returns (r: Outcome)
      requires roundSettings.prioritized != map[] ==> chosen in roundSettings.prioritized.Values
      modifies this`cardIndex, this`trace, this`actionController, this`centerCardRoundsAlive, players
      ensures !old(CanDo(AC.PerformMove, None)) ==>
        && r == Returned(false) && cardIndex == old(cardIndex) && trace == old(trace)
        && actionController == old(actionController) && centerCardRoundsAlive == old(centerCardRoundsAlive) && unchanged(players)
      ensures old(CanDo(AC.PerformMove, None)) ==>
        cardIndex == old(cardIndex) + (if old(cards).Some? && old(cardIndex) < |old(cards).value| then 1 else 0)
      ensures old(CanDo(AC.PerformMove, None)) && !old(Prelude(chosen)).Proceeds? ==>
        && r == (if old(Prelude(chosen)).Fails? then Threw(old(Prelude(chosen)).fault) else Returned(old(Prelude(chosen)).ok))
        && trace == old(trace) && actionController == old(actionController)
        && centerCardRoundsAlive == old(centerCardRoundsAlive) && unchanged(players)
      ensures old(CanDo(AC.PerformMove, None)) && old(Prelude(chosen)).Proceeds? ==>
        var plan := old(Prelude(chosen)).plan;
        && (r == Threw(DuplicateKey) <==> !DistinctIds(plan.targets))
        && (r.Threw? ==> r.fault == DuplicateKey || r.fault == NullReference)
        && (r == Threw(NullReference) ==>
              exists i :: 0 <= i < |plan.targets| && old(PlayerWithCard(players, plan.targets[i].Id())).None?)
        && (r.Threw? ==> actionController == old(actionController))
        && (r.Returned? ==> r.ok)
        && (r.Returned? ==> MovedOn(plan.targets))
        && TraceExtends(old(trace), trace, plan)
        && CounterAfter(plan, old(centerCardRoundsAlive))
    {
      if !CanDo(AC.PerformMove, None) {
        return Returned(false);
      }
      var pre := Prelude(chosen);
      if cards.Some? && cardIndex < |cards.value| {
        cardIndex := cardIndex + 1;
      }
      match pre
      case Fails(fault) => return Threw(fault);
      case Exits(ok) => return Returned(ok);
      case Proceeds(plan) => r := Resolve(plan);
    }

    /**
     * PerformRound: takes `order` (the battling cards ordered by speed) as the battle
     * sequence when there is none yet, then performs moves while the round is ongoing,
     * stopping at the first move that does not succeed.
     */
    method PerformRound(order: seq<Card>) returns (r: Outcome)
      requires multiset(order) == multiset(BattlingCards(players))
      modifies this`cards, this`cardIndex, this`trace, this`actionController, this`centerCardRoundsAlive, players
      ensures !old(CanDo(AC.PerformRound, None)) ==> r == Returned(false) && unchanged(this) && unchanged(players)
      ensures old(CanDo(AC.PerformRound, None)) ==> cards == if old(cards).None? then Some(order) else old(cards)
      ensures r == Returned(true) ==> !IsRoundOngoing()
    {
      if !CanDo(AC.PerformRound, None) {
        return Returned(false);
      }
      if cards.None? {
        cards := Some(order);
      }
      ghost var sequence := cards;
      while IsRoundOngoing()
        invariant cards == sequence && cards.Some?
        decreases |cards.value| - cardIndex
      {
        var chosen := CardId("");
        if roundSettings.prioritized != map[] {
          var k := PickKey(roundSettings.prioritized);
          chosen := roundSettings.prioritized[k];
        }
        r := PerformMove(chosen);
        if r != Returned(true) {
          return r;
        }
      }
      return Returned(true);
    }

    /**
     * FinishRound: fires every effect's OnRoundFinish on the current copies of the battle
     * sequence, then every player takes cards to hand again. The battle sequence stays.
     */
    method FinishRound() returns (r: Outcome)
      modifies this`trace, this`actionController
      ensures !old(CanDo(AC.FinishRound, None)) ==> r == Returned(false) && unchanged(this)
      ensures old(CanDo(AC.FinishRound, None)) && cards.None? ==> r == Threw(NullReference) && unchanged(this)
      ensures old(CanDo(AC.FinishRound, None)) && cards.Some? ==>
        && r == Returned(true)
        && trace == old(trace) + RoundHookEvents(OnRoundFinish, LiveCards(players, cards.value))
        && actionController == AC.SetNextExpectedAction([AC.TakeCardsToHand], PlayerIds())
    {
      if !CanDo(AC.FinishRound, None) {
        return Returned(false);
      }
      if cards.None? {
        return Threw(NullReference);
      }
      trace := trace + RoundHookEvents(OnRoundFinish, LiveCards(players, cards.value));
      actionController := AC.SetNextExpectedAction([AC.TakeCardsToHand], PlayerIds());
      return Returned(true);
    }

    /** FinishGame: nothing is expected any more. */
    method FinishGame() returns (r: bool)
      modifies this`actionController
      ensures r == old(CanDo(AC.FinishGame, None))
      ensures !r ==> actionController == old(actionController)
      ensures r ==> actionController == AC.SetNextExpectedAction([AC.NoAction]) && AC.Names(actionController) == [AC.NoAction]
    {
      if !CanDo(AC.FinishGame, None) {
        return false;
      }
      actionController := AC.SetNextExpectedAction([AC.NoAction]);
      return true;
    }
  }

  /** Fires the OnRoundStart hook of each effect of one card, in order. */
  method EffectsRoundStart(h: Hooks, effects: seq<Effect>, card: CardId, rs: RoundSettings) returns (out: RoundSettings, events: seq<Event>)
    ensures out == FoldEffectsRoundStart(h, effects, card, rs)
    ensures events == CardHookEvents(OnRoundStart, effects, card)
  {
    out, events := rs, [];
    for k := 0 to |effects|
      invariant out == FoldEffectsRoundStart(h, effects[..k], card, rs)
      invariant events == CardHookEvents(OnRoundStart, effects[..k], card)
    {
      assert effects[..k + 1][..k] == effects[..k];
      out := h.onRoundStart(effects[k], card, out);
      events := events + [Hooked(OnRoundStart, effects[k], card, None, None)];
    }
    assert effects[..|effects|] == effects;
  }

  /** Fires the OnRoundStart hooks of every combat card in `order`, in order. */
  method RoundStartHooks(h: Hooks, order: seq<Card>, rs: RoundSettings) returns (out: RoundSettings, events: seq<Event>)
    ensures out == FoldRoundStart(h, order, rs)
    ensures events == RoundHookEvents(OnRoundStart, order)
  {
    out, events := rs, [];
    for i := 0 to |order|
      invariant out == FoldRoundStart(h, order[..i], rs)
      invariant events == RoundHookEvents(OnRoundStart, order[..i])
    {
      var c := order[i];
      assert order[..i + 1][..i] == order[..i];
      if c.IsCombat() {
        var more;
        out, more := EffectsRoundStart(h, c.Effects(), c.Id(), out);
        events := events + more;
      }
    }
    assert order[..|order|] == order;
  }

  /** The AfterMoveAtAll calls: each attacker effect with a fresh move of damage 23. */
  method AfterAtAllHooks(effects: seq<Effect>, attacker: CardId, moveType: MoveType) returns (events: seq<Event>)
    ensures events == AfterAllEvents(effects, attacker, moveType)
  {
    events := [];
    for k := 0 to |effects|
      invariant events == AfterAllEvents(effects[..k], attacker, moveType)
    {
      events := events + [Hooked(AfterMoveAtAll, effects[k], attacker, None, Some(NewMove(23, moveType)))];
    }
    assert effects[..|effects|] == effects;
  }

  /** The AfterMoveAtSingleTarget calls: per attacker effect, per target, the damage rule's value. */
  method AfterAtSingleHooks(attacker: Card, targets: seq<Card>, moveType: MoveType, skillIndex: int) returns (events: seq<Event>)
    requires attacker.IsCombat()
    ensures events == AfterSingleEvents(attacker, attacker.Effects(), targets, moveType, skillIndex)
  {
    var effects := attacker.Effects();
    events := [];
    for k := 0 to |effects|
      invariant events == AfterSingleEvents(attacker, effects[..k], targets, moveType, skillIndex)
    {
      assert effects[..k + 1][..k] == effects[..k];
      var row := [];
      for j := 0 to |targets|
        invariant row == AfterSingleFor(attacker, effects[k], targets[..j], moveType, skillIndex)
      {
        var damage := CalculateDamage(attacker, Some(targets[j]), moveType, skillIndex);
        row := row + [Hooked(AfterMoveAtSingleTarget, effects[k], attacker.Id(), Some(targets[j].Id()), Some(NewMove(damage, moveType)))];
      }
      assert targets[..|targets|] == targets;
      events := events + row;
    }
    assert effects[..|effects|] == effects;
  }

  /** The AfterReceive calls: per target, each of its own effects with a fresh move of damage 23. */
  method AfterReceiveHooks(attacker: CardId, targets: seq<Card>, targetEffects: seq<seq<Effect>>, moveType: MoveType)
    returns (events: seq<Event>)
    requires |targetEffects| == |targets|
    ensures events == AfterReceiveEvents(attacker, targets, targetEffects, moveType)
  {
    events := [];
    for j := 0 to |targets|
      invariant events == AfterReceiveEvents(attacker, targets[..j], targetEffects[..j], moveType)
    {
      assert targets[..j + 1][..j] == targets[..j];
      assert targetEffects[..j + 1][..j] == targetEffects[..j];
      var own := targetEffects[j];
      var row := [];
      for k := 0 to |own|
        invariant row == AfterReceiveFor(targets[j].Id(), own[..k], attacker, moveType)
      {
        row := row + [Hooked(AfterReceive, own[k], targets[j].Id(), Some(attacker), Some(NewMove(23, moveType)))];
      }
      assert own[..|own|] == own;
      events := events + row;
    }
    assert targets[..|targets|] == targets;
    assert targetEffects[..|targetEffects|] == targetEffects;
  }

  /** The after-hook calls of one move: card-wide, then per target, then each target's own. */
  method AfterHooks(attacker: Card, targets: seq<Card>, targetEffects: seq<seq<Effect>>, moveType: MoveType, skillIndex: int)
    returns (events: seq<Event>)
    requires attacker.IsCombat() && |targetEffects| == |targets|
    ensures events == AfterEvents(attacker, targets, targetEffects, moveType, skillIndex)
  {
    var all := AfterAtAllHooks(attacker.Effects(), attacker.Id(), moveType);
    var single := AfterAtSingleHooks(attacker, targets, moveType, skillIndex);
    var receive := AfterReceiveHooks(attacker.Id(), targets, targetEffects, moveType);
    events := all + single + receive;
  }

  /** Some key of a non-empty map, picked at random. */
  method PickKey(m: map<string, CardId>) returns (k: string)
    requires m != map[]
    ensures k in m
  {
    k :| k in m;
  }
}
