/**
 * The client view of a game: a read-only projection of the game state for one requesting
 * player. Opponents' hands are face down, battling cards laid this lay-down phase are face
 * down while that phase lasts (for everybody, their owner included), heroes are always
 * face up; a face-down card shows its id and nothing else.
 */
module GameStateQuery {
  import opened Wrappers
  import opened CardBasics
  import opened Cards
  import Statistics
  import AC = ActionControl
  import P = Players
  import Gameplay

  datatype StatisticDto = StatisticDto(original: int, current: int)

  datatype StatisticsDto = StatisticsDto(attack: StatisticDto, hp: StatisticDto, speed: StatisticDto, power: StatisticDto)

  datatype CardDto = CardDto(
    id: string,
    isReversed: bool,
    name: string,
    race: string,
    cardClass: string,
    fraction: string,
    description: string,
    cardType: string,
    statistics: Option<StatisticsDto>)

  datatype CardAssignmentDto = CardAssignmentDto(
    diceOutcome: Option<string>,
    diceOutcomeIndex: int,
    skillIndex: int,
    sourceCardId: Option<string>,
    targetCardIds: seq<string>)

  datatype PlayerDto = PlayerDto(
    playerId: string,
    hero: Option<CardDto>,
    battlingDeck: seq<CardDto>,
    handDeck: seq<CardDto>,
    hasIdleCards: bool,
    diceOutcomes: Option<seq<string>>,
    cardAssignments: map<CardId, CardAssignmentDto>)

  datatype GameStateDto = GameStateDto(
    expectedActionTypes: seq<string>,
    expectedPlayers: seq<string>,
    alreadyMadeActionsPlayers: seq<string>,
    mustObeyOrder: bool)

  datatype Response = Response(
    id: string,
    version: nat,
    state: GameStateDto,
    player: Option<PlayerDto>,
    enemies: seq<PlayerDto>,
    hasCommonCards: bool,
    centerCard: Option<CardDto>,
    centerCardPlayerId: Option<string>)

  /** The answer to a state query, or the exception that ended it. */
  datatype QueryResult = Answer(response: Response) | Failed(fault: Fault)

  /** The kind tag a face-up card carries; a card of no known kind gets the empty tag. */
  function ToTypeString(c: Card): (r: string)
    ensures r == "" <==> c.Other?
    ensures r in {"", "hero", "unit", "skill", "item", "spell"}
  {
    match c
    case Hero(_, _, _) => "hero"
    case Unit(_, _, _) => "unit"
    case Skill(_, _) => "skill"
    case Item(_, _, _) => "item"
    case Spell(_) => "spell"
    case Other(_, _) => ""
  }

  function StatToDto(s: Statistics.Stat): (r: StatisticDto)
    ensures r.original == s.original && r.current == Statistics.Calculated(s)
  {
    StatisticDto(s.original, Statistics.Calculated(s))
  }

  /** Each of attack, HP, speed and power as its (original, calculated) pair. */
  function StatisticsToDto(g: Statistics.Stats): (r: StatisticsDto)
    ensures r.attack == StatToDto(g.attack) && r.hp == StatToDto(g.hp)
    ensures r.speed == StatToDto(g.speed) && r.power == StatToDto(g.power)
  {
    StatisticsDto(StatToDto(g.attack), StatToDto(g.hp), StatToDto(g.speed), StatToDto(g.power))
  }

  /** A card face down: its id, and every other field at its default. */
  function Hidden(c: Card): CardDto
  {
    CardDto(c.Id().value, true, "", "", "", "", "", "", None)
  }

  /** Whether the card is shown face down: forced, or laid freshly. */
  predicate IsHidden(c: Card, forceReversed: bool, freshLaid: seq<CardId>)
  {
    forceReversed || c.Id() in freshLaid
  }

  function CardDtoOf(c: Card, forceReversed: bool, freshLaid: seq<CardId>): (r: CardDto)
    ensures r.id == c.Id().value
    ensures r.isReversed <==> IsHidden(c, forceReversed, freshLaid)
    ensures IsHidden(c, forceReversed, freshLaid) ==> r == Hidden(c)
  {
    if IsHidden(c, forceReversed, freshLaid) then Hidden(c)
    else
      var info := c.Info();
      var stats := match c.Statistics() { case Some(g) => Some(StatisticsToDto(g)) case None => None };
      CardDto(c.Id().value, false, info.name, info.race, info.cardClass, info.fraction, "", ToTypeString(c), stats)
  }

  /** A card's view; an absent card has none. */
  function CardToDto(card: Option<Card>, forceReversed: bool := false, freshLaid: seq<CardId> := []): (r: Option<CardDto>)
    ensures r.None? <==> card.None?
    ensures card.Some? ==> r.value == CardDtoOf(card.value, forceReversed, freshLaid)
  {
    match card
    case None => None
    case Some(c) => Some(CardDtoOf(c, forceReversed, freshLaid))
  }

  /** The views of a deck's cards, one per card, in deck order. */
  function DeckToDto(deck: seq<Card>, forceReversed: bool := false, freshLaid: seq<CardId> := []): (r: seq<CardDto>)
    ensures |r| == |deck|
    ensures forall i :: 0 <= i < |deck| ==> r[i] == CardDtoOf(deck[i], forceReversed, freshLaid)
  {
    seq(|deck|, i requires 0 <= i < |deck| => CardDtoOf(deck[i], forceReversed, freshLaid))
  }

  /** What a client reads back from a face-up card: its metadata and calculated statistics. */
  datatype Shown = Shown(info: CardInfo, kind: string, stats: Option<(int, int, int, int)>)

  function ShownBy(d: CardDto): Shown
  {
    Shown(CardInfo(d.name, d.race, d.cardClass, d.fraction), d.cardType,
          match d.statistics { case Some(s) => Some((s.attack.current, s.hp.current, s.speed.current, s.power.current)) case None => None })
  }

  function ShownOf(c: Card): Shown
  {
    Shown(c.Info(), ToTypeString(c),
          match c.Statistics() {
            case Some(g) =>
              Some((Statistics.Calculated(g.attack), Statistics.Calculated(g.hp),
                    Statistics.Calculated(g.speed), Statistics.Calculated(g.power)))
            case None => None })
  }

  /** A face-up card's view carries the card's display data and calculated statistics. */
  lemma VisibleCardIsShown(c: Card, freshLaid: seq<CardId>)
    requires c.Id() !in freshLaid
    ensures var d := CardDtoOf(c, false, freshLaid);
      !d.isReversed && d.description == "" && ShownBy(d) == ShownOf(c)
  {
  }

  /** A face-down view depends on the card's id only: two cards with one id look alike. */
  lemma HiddenCardsLookAlike(a: Card, b: Card, forceReversed: bool, freshLaid: seq<CardId>)
    requires a.Id() == b.Id() && IsHidden(a, forceReversed, freshLaid)
    ensures CardDtoOf(a, forceReversed, freshLaid) == CardDtoOf(b, forceReversed, freshLaid)
  {
  }

  /** A face-down deck tells nothing but the ids of its cards, in order. */
  lemma {:induction false} HiddenDecksLookAlike(a: seq<Card>, b: seq<Card>, freshLaid: seq<CardId>)
    requires |a| == |b| && forall i :: 0 <= i < |a| ==> a[i].Id() == b[i].Id()
    ensures DeckToDto(a, true, freshLaid) == DeckToDto(b, true, freshLaid)
  {
    var da, db := DeckToDto(a, true, freshLaid), DeckToDto(b, true, freshLaid);
    forall i | 0 <= i < |a|
      ensures da[i] == db[i]
    {
      HiddenCardsLookAlike(a[i], b[i], true, freshLaid);
    }
  }

  function AssignmentToDto(a: P.CardAssignment): (r: CardAssignmentDto)
    ensures r.diceOutcome.Some? <==> a.diceOutcome.Some?
    ensures a.diceOutcome.Some? ==> r.diceOutcome.value == a.diceOutcome.value.Value()
    ensures r.sourceCardId.Some? <==> a.sourceCardId.Some?
    ensures a.sourceCardId.Some? ==> r.sourceCardId.value == a.sourceCardId.value.value
    ensures r.diceOutcomeIndex == a.diceOutcomeIndex && r.skillIndex == a.skillIndex
    ensures |r.targetCardIds| == |a.targetCardIds|
    ensures forall i :: 0 <= i < |a.targetCardIds| ==> r.targetCardIds[i] == a.targetCardIds[i].value
  {
    CardAssignmentDto(
      match a.diceOutcome { case Some(o) => Some(o.Value()) case None => None },
      a.diceOutcomeIndex,
      a.skillIndex,
      match a.sourceCardId { case Some(id) => Some(id.value) case None => None },
      seq(|a.targetCardIds|, i requires 0 <= i < |a.targetCardIds| => a.targetCardIds[i].value))
  }

  /** One view per assigned card, keyed by the card's id. */
  function AssignmentsToDto(m: map<CardId, P.CardAssignment>): (r: map<CardId, CardAssignmentDto>)
    ensures r.Keys == m.Keys
    ensures forall k :: k in m ==> r[k] == AssignmentToDto(m[k])
  {
    map k | k in m :: AssignmentToDto(m[k])
  }

  function DiceValues(ds: seq<DiceOutcome>): (r: seq<string>)
    ensures |r| == |ds| && forall i :: 0 <= i < |ds| ==> r[i] == ds[i].Value()
  {
    seq(|ds|, i requires 0 <= i < |ds| => ds[i].Value())
  }

  /**
   * A player's view: the hero always face up; the battling deck face down where forced or
   * freshly laid; the hand face down where forced, and never hidden as freshly laid.
   */
  function PlayerToDto(p: P.Player, freshLaid: seq<CardId>, handReversed: bool := false,
                       battlingReversed: bool := false): (r: PlayerDto)
    reads p
    ensures r.playerId == p.id.value
    ensures r.hero == CardToDto(p.heroCard)
    ensures r.battlingDeck == DeckToDto(p.battlingDeck, battlingReversed, freshLaid)
    ensures r.handDeck == DeckToDto(p.handDeck, handReversed)
    ensures r.hasIdleCards <==> p.idleDeck != []
    ensures r.diceOutcomes.Some? <==> p.diceOutcomesToAssign.Some?
    ensures p.diceOutcomesToAssign.Some? ==> r.diceOutcomes.value == DiceValues(p.diceOutcomesToAssign.value)
    ensures r.cardAssignments == AssignmentsToDto(p.cardAssignments)
  {
    PlayerDto(
      p.id.value,
      CardToDto(p.heroCard),
      DeckToDto(p.battlingDeck, battlingReversed, freshLaid),
      DeckToDto(p.handDeck, handReversed),
      |p.idleDeck| > 0,
      match p.diceOutcomesToAssign { case Some(ds) => Some(DiceValues(ds)) case None => None },
      AssignmentsToDto(p.cardAssignments))
  }

  /** The views of several players, in order. */
  function PlayersToDtos(ps: seq<P.Player>, freshLaid: seq<CardId>, handReversed: bool := false,
                         battlingReversed: bool := false): (r: seq<PlayerDto>)
    reads ps
    ensures |r| == |ps|
    ensures forall i :: 0 <= i < |ps| ==> r[i] == PlayerToDto(ps[i], freshLaid, handReversed, battlingReversed)
  {
    seq(|ps|, i reads ps requires 0 <= i < |ps| => PlayerToDto(ps[i], freshLaid, handReversed, battlingReversed))
  }

  /** The players other than `id`, in order. */
  function NotOfId(ps: seq<P.Player>, id: UserId): (r: seq<P.Player>)
    ensures forall p :: p in ps && p.id != id ==> p in r
    ensures forall p :: p in r ==> p in ps && p.id != id
    ensures |r| <= |ps|
  {
    if ps == [] then []
    else if ps[0].id == id then NotOfId(ps[1..], id)
    else [ps[0]] + NotOfId(ps[1..], id)
  }

  /** The players who completed some Single action, in order of appearance, with repeats. */
  function SingleCompleters(actions: seq<AC.ActionEntry>): (r: seq<UserId>)
    ensures forall u :: u in r <==> exists i :: 0 <= i < |actions| && actions[i].repeat == AC.Single && u in actions[i].madeBy
  {
    if actions == [] then []
    else
      var rest := SingleCompleters(actions[1..]);
      assert forall i :: 1 <= i < |actions| ==> actions[1..][i - 1] == actions[i];
      (if actions[0].repeat == AC.Single then actions[0].madeBy else []) + rest
  }

  /** The distinct elements of `s`, each where it first occurs. */
  function Distinct(s: seq<UserId>): (r: seq<UserId>)
    ensures forall u :: u in r <==> u in s
    ensures forall i, j :: 0 <= i < j < |r| ==> r[i] != r[j]
    ensures |r| <= |s|
  {
    if s == [] then []
    else
      var rest := Distinct(s[..|s| - 1]);
      var last := s[|s| - 1];
      assert s == s[..|s| - 1] + [last];
      if last in rest then rest else rest + [last]
  }

  function Values(us: seq<UserId>): (r: seq<string>)
    ensures |r| == |us| && forall i :: 0 <= i < |us| ==> r[i] == us[i].value
  {
    seq(|us|, i requires 0 <= i < |us| => us[i].value)
  }

  function ActionNames(c: AC.Controller): (r: seq<string>)
    ensures |r| == |c.actions| && forall i :: 0 <= i < |r| ==> r[i] == c.actions[i].name.Name()
  {
    seq(|c.actions|, i requires 0 <= i < |c.actions| => c.actions[i].name.Name())
  }

  /** The admission state as the client sees it. */
  function ControllerToDto(c: AC.Controller): (r: GameStateDto)
    ensures r.expectedActionTypes == ActionNames(c)
    ensures r.expectedPlayers == Values(c.expectedPlayers)
    ensures r.mustObeyOrder == c.mustObeyOrder
  {
    GameStateDto(ActionNames(c), Values(c.expectedPlayers), Values(Distinct(SingleCompleters(c.actions))), c.mustObeyOrder)
  }

  /**
   * The players listed as having acted are exactly the players the controller counts as done,
   * each listed once.
   */
  lemma AlreadyMadeIsDone(c: AC.Controller, u: UserId)
    ensures var made := ControllerToDto(c).alreadyMadeActionsPlayers;
      (u.value in made <==> AC.IsDone(c, u))
      && forall i, j :: 0 <= i < j < |made| ==> made[i] != made[j]
  {
    var d := Distinct(SingleCompleters(c.actions));
    var made := Values(d);
    if u.value in made {
      var k :| 0 <= k < |made| && made[k] == u.value;
      assert d[k] == u && u in d;
      assert u in SingleCompleters(c.actions);
      var i :| 0 <= i < |c.actions| && c.actions[i].repeat == AC.Single && u in c.actions[i].madeBy;
    }
    if AC.IsDone(c, u) {
      var i :| 0 <= i < |c.actions| && c.actions[i].repeat == AC.Single && u in c.actions[i].madeBy;
      assert u in SingleCompleters(c.actions);
      assert u in d;
      var k :| 0 <= k < |d| && d[k] == u;
      assert made[k] == u.value;
    }
    forall i, j | 0 <= i < j < |made|
      ensures made[i] != made[j]
    {
      assert d[i] != d[j];
    }
  }

  /**
   * The projection of a loaded game for `requester`. `freshLaid`, `version` and
   * `centerOwner` are read from the game record the query is written against; the game
   * model here does not keep them.
   */
  function View(g: Gameplay.Game, requester: UserId, freshLaid: seq<CardId>, version: nat,
                centerOwner: Option<UserId>): (r: QueryResult)
    reads g, g.players
    ensures r.Failed? <==> g.commonPool.None?
    ensures r.Failed? ==> r.fault == NullReference
    ensures r.Answer? ==>
      && r.response.id == g.id && r.response.version == version
      && r.response.state == ControllerToDto(g.actionController)
      && (r.response.hasCommonCards <==> g.commonPool.value != [])
      && r.response.centerCard == CardToDto(g.centerCard)
  {
    var hiddenFresh := if AC.Permits(g.actionController, AC.LayCardsToBattle) then freshLaid else [];
    match g.commonPool
    case None => Failed(NullReference)
    case Some(pool) =>
      Answer(Response(g.id, version, ControllerToDto(g.actionController),
                      OwnView(g.players, requester, hiddenFresh),
                      PlayersToDtos(NotOfId(g.players, requester), hiddenFresh, true), |pool| > 0,
                      CardToDto(g.centerCard), match centerOwner { case Some(o) => Some(o.value) case None => None }))
  }

  /** The requester's view, when some player has the requester's id. */
  function OwnView(ps: seq<P.Player>, requester: UserId, freshLaid: seq<CardId>): (r: Option<PlayerDto>)
    reads ps
    ensures r.Some? <==> Gameplay.PlayerOfId(ps, requester).Some?
    ensures r.Some? ==> r.value == PlayerToDto(Gameplay.PlayerOfId(ps, requester).value, freshLaid)
  {
    match Gameplay.PlayerOfId(ps, requester)
    case Some(p) => Some(PlayerToDto(p, freshLaid))
    case None => None
  }

  /** The players' views inside the answer, as the query builds them. */
  lemma ViewParts(g: Gameplay.Game, requester: UserId, freshLaid: seq<CardId>, version: nat,
                  centerOwner: Option<UserId>)
    requires g.commonPool.Some?
    ensures var v := View(g, requester, freshLaid, version, centerOwner).response;
      var hiddenFresh := if AC.Permits(g.actionController, AC.LayCardsToBattle) then freshLaid else [];
      var found := Gameplay.PlayerOfId(g.players, requester);
      && (v.player.Some? <==> found.Some?)
      && (found.Some? ==> v.player.value == PlayerToDto(found.value, hiddenFresh))
      && v.enemies == PlayersToDtos(NotOfId(g.players, requester), hiddenFresh, true)
  {
  }

  /**
   * The requester's own view: the hand and the hero face up, and a battling card face down
   * exactly when the lay-down phase is on and the card was laid freshly.
   */
  lemma ViewShowsOwnCards(g: Gameplay.Game, requester: UserId, freshLaid: seq<CardId>, version: nat,
                          centerOwner: Option<UserId>)
    requires g.commonPool.Some?
    ensures var v := View(g, requester, freshLaid, version, centerOwner).response;
      var laying := AC.Permits(g.actionController, AC.LayCardsToBattle);
      && (v.player.Some? <==> exists p :: p in g.players && p.id == requester)
      && (v.player.Some? ==>
            var p := Gameplay.PlayerOfId(g.players, requester).value;
            && v.player.value.playerId == requester.value
            && (forall d :: d in v.player.value.handDeck ==> !d.isReversed)
            && (v.player.value.hero.Some? ==> !v.player.value.hero.value.isReversed)
            && |v.player.value.battlingDeck| == |p.battlingDeck|
            && forall i :: 0 <= i < |p.battlingDeck| ==>
                 (v.player.value.battlingDeck[i].isReversed <==> laying && p.battlingDeck[i].Id() in freshLaid))
  {
    ViewParts(g, requester, freshLaid, version, centerOwner);
    var v := View(g, requester, freshLaid, version, centerOwner).response;
    var found := Gameplay.PlayerOfId(g.players, requester);
    if found.Some? {
      var hand := v.player.value.handDeck;
      forall d | d in hand
        ensures !d.isReversed
      {
        var k :| 0 <= k < |hand| && hand[k] == d;
        assert d == CardDtoOf(found.value.handDeck[k], false, []);
      }
    }
  }

  /**
   * The opponents' views: one per other player, in order, each with the hand face down
   * and the hero face up.
   */
  lemma ViewHidesEnemyHands(g: Gameplay.Game, requester: UserId, freshLaid: seq<CardId>, version: nat,
                            centerOwner: Option<UserId>)
    requires g.commonPool.Some?
    ensures var v := View(g, requester, freshLaid, version, centerOwner).response;
      var hiddenFresh := if AC.Permits(g.actionController, AC.LayCardsToBattle) then freshLaid else [];
      && (forall e :: e in v.enemies ==>
            && e.playerId != requester.value
            && (forall d :: d in e.handDeck ==> d.isReversed)
            && (e.hero.Some? ==> !e.hero.value.isReversed))
      && (forall p :: p in g.players && p.id != requester ==> PlayerToDto(p, hiddenFresh, true) in v.enemies)
  {
    ViewParts(g, requester, freshLaid, version, centerOwner);
    var hiddenFresh := if AC.Permits(g.actionController, AC.LayCardsToBattle) then freshLaid else [];
    var v := View(g, requester, freshLaid, version, centerOwner).response;
    var others := NotOfId(g.players, requester);
    forall p | p in g.players && p.id != requester
      ensures PlayerToDto(p, hiddenFresh, true) in v.enemies
    {
      var k :| 0 <= k < |others| && others[k] == p;
      assert v.enemies[k] == PlayerToDto(p, hiddenFresh, true);
    }
    forall e | e in v.enemies
      ensures e.playerId != requester.value
      ensures forall d :: d in e.handDeck ==> d.isReversed
    {
      var k :| 0 <= k < |v.enemies| && v.enemies[k] == e;
      assert others[k] in others;
      assert e == PlayerToDto(others[k], hiddenFresh, true);
    }
  }
}
