/**
 * A participant's deck state: the hero, the four deck partitions, the dice rolled this
 * round and the per-card assignments. Cards are values; a card's statistics and effects
 * change by replacing it, by id, wherever this player holds it.
 */
module Players {
  import opened Wrappers
  import opened CardBasics
  import opened Cards
  import Statistics
  import Ordering

  const PlayableCardsPerPlayerCount := 30
  const MaxHandCardsCount := 6
  const MaxBattlingCardsCount := 6

  /** A lay-down request: which hand card, aimed at which card, or onto the centre slot. */
  datatype CardToLay = CardToLay(sourceCardId: CardId, targetCardId: Option<CardId>, toCenter: bool)

  /** A player's choices for one battling card this round. */
  datatype CardAssignment = CardAssignment(
    diceOutcome: Option<DiceOutcome>,
    diceOutcomeIndex: int,
    skillIndex: int,
    sourceCardId: Option<CardId>,
    targetCardIds: seq<CardId>)

  function EmptyAssignment(cardId: CardId): CardAssignment
  {
    CardAssignment(None, -1, -1, Some(cardId), [])
  }

  /** The number of cards a take of `n` from a deck of `available` cards yields. */
  function TakeCount(n: int, available: nat): (k: nat)
    ensures k <= available
    ensures n <= 0 ==> k == 0
    ensures 0 <= n <= available ==> k == n
    ensures n > available ==> k == available
  {
    if n <= 0 then 0 else if n > available then available else n
  }

  /** `n` bounded above by `max`. */
  function Clamp(n: int, max: int): (r: int)
    ensures r <= n && r <= max && (r == n || r == max)
  {
    if n > max then max else n
  }

  /** The first card with id `id`. */
  function Find(deck: seq<Card>, id: CardId): (r: Option<Card>)
    ensures r.Some? ==> r.value in deck && r.value.Id() == id
    ensures r.None? <==> forall c :: c in deck ==> c.Id() != id
  {
    if deck == [] then None
    else if deck[0].Id() == id then Some(deck[0])
    else Find(deck[1..], id)
  }

  /** Every card with id `id` replaced by its image under `f`. */
  function Apply(deck: seq<Card>, id: CardId, f: Card -> Card): (r: seq<Card>)
    ensures |r| == |deck|
    ensures forall i :: 0 <= i < |deck| ==> r[i] == (if deck[i].Id() == id then f(deck[i]) else deck[i])
  {
    seq(|deck|, i requires 0 <= i < |deck| => if deck[i].Id() == id then f(deck[i]) else deck[i])
  }

  /** Rewriting the cards of one id leaves the card found under any other id as it was. */
  lemma {:induction false} FindApplyOther(deck: seq<Card>, id: CardId, other: CardId, f: Card -> Card)
    requires forall c :: f(c).Id() == c.Id()
    requires other != id
    ensures Find(Apply(deck, id, f), other) == Find(deck, other)
  {
    if deck != [] {
      assert Apply(deck, id, f)[1..] == Apply(deck[1..], id, f);
      FindApplyOther(deck[1..], id, other, f);
    }
  }

  /** Taking out the first card of one id leaves the card found under any other id as it was. */
  lemma {:induction false} FindRemoveFirstOther(deck: seq<Card>, id: CardId, other: CardId)
    requires other != id
    ensures Find(RemoveFirst(deck, id), other) == Find(deck, other)
  {
    if deck != [] && deck[0].Id() != id {
      assert RemoveFirst(deck, id) == [deck[0]] + RemoveFirst(deck[1..], id);
      assert ([deck[0]] + RemoveFirst(deck[1..], id))[1..] == RemoveFirst(deck[1..], id);
      FindRemoveFirstOther(deck[1..], id, other);
    }
  }

  /** Appending a card of another id does not change what is found first under `other`. */
  lemma {:induction false} FindAppendOther(deck: seq<Card>, c: Card, other: CardId)
    requires c.Id() != other
    ensures Find(deck + [c], other) == Find(deck, other)
  {
    if deck != [] {
      assert (deck + [c])[1..] == deck[1..] + [c];
      FindAppendOther(deck[1..], c, other);
    } else {
      assert (deck + [c])[1..] == [];
    }
  }

  lemma {:induction false} FindApply(deck: seq<Card>, id: CardId, f: Card -> Card)
    requires forall c :: f(c).Id() == c.Id()
    ensures Find(Apply(deck, id, f), id) == if Find(deck, id).Some? then Some(f(Find(deck, id).value)) else None
  {
    if deck != [] {
      assert Apply(deck, id, f)[1..] == Apply(deck[1..], id, f);
      FindApply(deck[1..], id, f);
    }
  }

  /** The deck without the cards whose ids are listed. */
  function WithoutIds(deck: seq<Card>, ids: seq<CardId>): (r: seq<Card>)
    ensures forall c :: c in r <==> c in deck && c.Id() !in ids
    ensures multiset(r) <= multiset(deck)
  {
    if deck == [] then []
    else
      assert deck == [deck[0]] + deck[1..];
      if deck[0].Id() in ids then WithoutIds(deck[1..], ids)
      else [deck[0]] + WithoutIds(deck[1..], ids)
  }

  /** The deck without its first card with id `id`. */
  function RemoveFirst(deck: seq<Card>, id: CardId): (r: seq<Card>)
    ensures Find(deck, id).Some? ==> multiset(r) + multiset{Find(deck, id).value} == multiset(deck)
    ensures Find(deck, id).None? ==> r == deck
  {
    if deck == [] then []
    else
      assert deck == [deck[0]] + deck[1..];
      if deck[0].Id() == id then deck[1..]
      else [deck[0]] + RemoveFirst(deck[1..], id)
  }

  /** The source ids of the lay-down requests aimed at the card `heroId`, in request order. */
  function CardsForHero(cards: seq<CardToLay>, heroId: CardId): (r: seq<CardId>)
    ensures forall id :: id in r <==> exists c :: c in cards && c.targetCardId == Some(heroId) && c.sourceCardId == id
  {
    if cards == [] then []
    else
      assert forall c :: c in cards <==> c == cards[0] || c in cards[1..];
      (if cards[0].targetCardId == Some(heroId) then [cards[0].sourceCardId] else [])
      + CardsForHero(cards[1..], heroId)
  }

  /** The sum of the calculated speeds of the cards that have statistics. */
  function SpeedSum(deck: seq<Card>): int
  {
    if deck == [] then 0
    else
      (if deck[0].Statistics().Some? then Statistics.Calculated(deck[0].Statistics().value.speed) else 0)
      + SpeedSum(deck[1..])
  }

  /** The hero's calculated speed; a missing hero counts as 0. */
  function HeroSpeed(hero: Option<Card>): int
  {
    if hero.Some? && hero.value.Statistics().Some? then Statistics.Calculated(hero.value.Statistics().value.speed)
    else 0
  }

  class Player {
    const id: UserId
    var heroCard: Option<Card>
    var heroSlots: seq<CardId>
    var idleDeck: seq<Card>
    var handDeck: seq<Card>
    var battlingDeck: seq<Card>
    var deadDeck: seq<Card>
    var diceOutcomesToAssign: Option<seq<DiceOutcome>>
    var cardAssignments: map<CardId, CardAssignment>

    constructor (id: UserId, hero: Option<Card>, idle: seq<Card>)
      ensures this.id == id && heroCard == hero && idleDeck == idle
      ensures heroSlots == [] && handDeck == [] && battlingDeck == [] && deadDeck == []
      ensures diceOutcomesToAssign == None && cardAssignments == map[]
    {
      this.id := id;
      heroCard := hero;
      idleDeck := idle;
      heroSlots, handDeck, battlingDeck, deadDeck := [], [], [], [];
      diceOutcomesToAssign := None;
      cardAssignments := map[];
    }

    /** Where this player holds a card with id `cardId`: the hero first, then each deck. */
    function CardWithId(cardId: CardId): (r: Option<Card>)
      reads this
      ensures r.Some? ==> r.value.Id() == cardId
    {
      if heroCard.Some? && heroCard.value.Id() == cardId then heroCard
      else if Find(battlingDeck, cardId).Some? then Find(battlingDeck, cardId)
      else if Find(handDeck, cardId).Some? then Find(handDeck, cardId)
      else if Find(idleDeck, cardId).Some? then Find(idleDeck, cardId)
      else Find(deadDeck, cardId)
    }

    predicate Has(cardId: CardId)
      reads this
    {
      CardWithId(cardId).Some?
    }

    /** Whether this player's copy of the card has run out of HP. */
    predicate IsCardDead(cardId: CardId)
      reads this
    {
      CardWithId(cardId).Some? && Cards.IsCardDead(CardWithId(cardId).value)
    }

    /**
     * Shuffles the idle deck (`shuffled` is the order the shuffle produced) and takes
     * PlayableCardsPerPlayerCount / 2 = 15 cards off it.
     */
    method ShuffleAllAndTakeHalfCards(shuffled: seq<Card>) returns (taken: seq<Card>)
      requires multiset(shuffled) == multiset(idleDeck)
      modifies this`idleDeck
      ensures taken == shuffled[..TakeCount(PlayableCardsPerPlayerCount / 2, |shuffled|)]
      ensures idleDeck == shuffled[|taken|..]
      ensures |shuffled| >= 15 ==> |taken| == 15
      ensures multiset(taken) + multiset(idleDeck) == old(multiset(idleDeck))
    {
      idleDeck := shuffled;
      var k := TakeCount(PlayableCardsPerPlayerCount / 2, |idleDeck|);
      taken := idleDeck[..k];
      idleDeck := idleDeck[k..];
      assert shuffled == taken + idleDeck;
    }

    /**
     * Takes up to `n` idle cards, at most as many as the hand has room for, and makes them
     * the new hand; `order` is the order the random pick visits the idle deck in.
     */
    method TakeCardsToHand(order: seq<Card>, n: int)
      requires multiset(order) == multiset(idleDeck)
      modifies this`handDeck, this`idleDeck
      ensures var k := TakeCount(Clamp(n, MaxHandCardsCount - old(|handDeck|)), |order|);
        handDeck == order[..k] && idleDeck == order[k..]
      ensures |handDeck| <= MaxHandCardsCount - old(|handDeck|) || |handDeck| == 0
      ensures multiset(handDeck) + multiset(idleDeck) == old(multiset(idleDeck))
    {
      var maxCardsCanTakeCount := MaxHandCardsCount - |handDeck|;
      var m := Clamp(n, maxCardsCanTakeCount);
      var k := TakeCount(m, |order|);
      handDeck := order[..k];
      idleDeck := order[k..];
      assert order == handDeck + idleDeck;
    }

    /**
     * Rejects more than three cards (the request must fit twice into the battlefield);
     * otherwise takes the cards aimed at the hero out of the hand and puts their ids into
     * the hero's slots.
     */
    method LayCardsToBattle(cards: seq<CardToLay>) returns (r: Outcome)
      modifies this`handDeck, this`heroSlots
      ensures |cards| > 3 ==> r == Returned(false) && handDeck == old(handDeck) && heroSlots == old(heroSlots)
      ensures |cards| <= 3 && heroCard.None? && |cards| > 0 ==>
        r == Threw(NullReference) && handDeck == old(handDeck) && heroSlots == old(heroSlots)
      ensures |cards| <= 3 && (heroCard.Some? || |cards| == 0) ==>
        var forHero := if heroCard.Some? then CardsForHero(cards, heroCard.value.Id()) else [];
        && r == Returned(true)
        && handDeck == WithoutIds(old(handDeck), forHero)
        && heroSlots == old(heroSlots) + forHero
    {
      var maxCardsCanTake := MaxBattlingCardsCount - |cards|;
      if |cards| > maxCardsCanTake {
        return Returned(false);
      }
      if heroCard.None? && |cards| > 0 {
        return Threw(NullReference);
      }
      var cardsForHero := if heroCard.Some? then CardsForHero(cards, heroCard.value.Id()) else [];
      handDeck := WithoutIds(handDeck, cardsForHero);
      heroSlots := heroSlots + cardsForHero;
      return Returned(true);
    }

    /** Puts a card (if any) into the hand. */
    method AddCardToHand(card: Option<Card>)
      modifies this`handDeck
      ensures handDeck == old(handDeck) + (if card.Some? then [card.value] else [])
    {
      if card.Some? {
        handDeck := handDeck + [card.value];
      }
    }

    /** Moves one idle card, chosen at random, into the hand; nothing when the idle deck is empty. */
    method TakeCardToHand()
      modifies this`handDeck, this`idleDeck
      ensures multiset(handDeck) + multiset(idleDeck) == old(multiset(handDeck) + multiset(idleDeck))
      ensures old(|idleDeck|) > 0 ==> |handDeck| == old(|handDeck|) + 1 && |idleDeck| == old(|idleDeck|) - 1
      ensures old(|idleDeck|) == 0 ==> handDeck == old(handDeck) && idleDeck == old(idleDeck)
    {
      if |idleDeck| > 0 {
        var i :| 0 <= i < |idleDeck|;
        var c := idleDeck[i];
        assert idleDeck == idleDeck[..i] + [c] + idleDeck[i + 1..];
        handDeck := handDeck + [c];
        idleDeck := idleDeck[..i] + idleDeck[i + 1..];
      }
    }

    /** Takes the first hand card with id `cardId` out of the hand, if there is one. */
    method TakeCardFromHand(cardId: CardId) returns (card: Option<Card>)
      modifies this`handDeck
      ensures card == Find(old(handDeck), cardId)
      ensures handDeck == RemoveFirst(old(handDeck), cardId)
    {
      card := Find(handDeck, cardId);
      handDeck := RemoveFirst(handDeck, cardId);
    }

    /** Records the dice outcomes a roll produced. */
    method PlayDices(rolled: seq<DiceOutcome>)
      modifies this`diceOutcomesToAssign
      ensures diceOutcomesToAssign == Some(rolled)
    {
      diceOutcomesToAssign := Some(rolled);
    }

    function AssignmentOf(cardId: CardId): CardAssignment
      reads this
    {
      if cardId in cardAssignments then cardAssignments[cardId] else EmptyAssignment(cardId)
    }

    /** Assigns rolled dice `diceIndex` to a card; fails when there is no such dice. */
    method AssignDiceToCard(diceIndex: int, cardId: CardId) returns (ok: bool)
      modifies this`cardAssignments
      ensures ok <==> diceOutcomesToAssign.Some? && 0 <= diceIndex < |diceOutcomesToAssign.value|
      ensures ok ==> cardAssignments == old(cardAssignments)[cardId :=
        old(AssignmentOf(cardId)).(diceOutcome := Some(diceOutcomesToAssign.value[diceIndex]),
                                   diceOutcomeIndex := diceIndex)]
      ensures !ok ==> cardAssignments == old(cardAssignments)
    {
      ok := diceOutcomesToAssign.Some? && 0 <= diceIndex < |diceOutcomesToAssign.value|;
      if ok {
        var a := AssignmentOf(cardId);
        cardAssignments := cardAssignments[cardId :=
          a.(diceOutcome := Some(diceOutcomesToAssign.value[diceIndex]), diceOutcomeIndex := diceIndex)];
      }
    }

    method RemoveDiceFromCard(cardId: CardId)
      modifies this`cardAssignments
      ensures cardId in old(cardAssignments) ==>
        cardAssignments == old(cardAssignments)[cardId := old(cardAssignments)[cardId].(diceOutcome := None, diceOutcomeIndex := -1)]
      ensures cardId !in old(cardAssignments) ==> cardAssignments == old(cardAssignments)
    {
      if cardId in cardAssignments {
        cardAssignments := cardAssignments[cardId := cardAssignments[cardId].(diceOutcome := None, diceOutcomeIndex := -1)];
      }
    }

    method ChooseCardSkill(cardId: CardId, skillIndex: int)
      modifies this`cardAssignments
      ensures cardAssignments == old(cardAssignments)[cardId := old(AssignmentOf(cardId)).(skillIndex := skillIndex)]
    {
      cardAssignments := cardAssignments[cardId := AssignmentOf(cardId).(skillIndex := skillIndex)];
    }

    method AssignCardTarget(cardId: CardId, targetCardId: CardId)
      modifies this`cardAssignments
      ensures cardId in cardAssignments && targetCardId in cardAssignments[cardId].targetCardIds
      ensures var a := old(AssignmentOf(cardId));
        cardAssignments == old(cardAssignments)[cardId := a.(targetCardIds :=
          if targetCardId in a.targetCardIds then a.targetCardIds else a.targetCardIds + [targetCardId])]
      ensures forall other :: other != cardId ==>
        (other in cardAssignments <==> other in old(cardAssignments)) &&
        (other in cardAssignments ==> cardAssignments[other] == old(cardAssignments)[other])
    {
      var a := AssignmentOf(cardId);
      if targetCardId !in a.targetCardIds {
        a := a.(targetCardIds := a.targetCardIds + [targetCardId]);
      }
      cardAssignments := cardAssignments[cardId := a];
    }

    method RemoveCardTarget(cardId: CardId, targetCardId: CardId)
      modifies this`cardAssignments
      ensures cardId in old(cardAssignments) ==>
        cardId in cardAssignments && targetCardId !in cardAssignments[cardId].targetCardIds
      ensures cardId !in old(cardAssignments) ==> cardAssignments == old(cardAssignments)
      ensures cardId in old(cardAssignments) ==>
        var a := old(cardAssignments)[cardId];
        cardAssignments == old(cardAssignments)[cardId := a.(targetCardIds := RemoveId(a.targetCardIds, targetCardId))]
      ensures forall other :: other != cardId ==>
        (other in cardAssignments <==> other in old(cardAssignments)) &&
        (other in cardAssignments ==> cardAssignments[other] == old(cardAssignments)[other])
    {
      if cardId in cardAssignments {
        var a := cardAssignments[cardId];
        var kept := RemoveId(a.targetCardIds, targetCardId);
        cardAssignments := cardAssignments[cardId := a.(targetCardIds := kept)];
      }
    }

    /** Replaces every copy of the card `cardId` this player holds by its image under `f`. */
    method UpdateCard(cardId: CardId, f: Card -> Card)
      requires forall c :: f(c).Id() == c.Id()
      modifies this`heroCard, this`battlingDeck, this`handDeck, this`idleDeck, this`deadDeck
      ensures heroCard == (if old(heroCard).Some? && old(heroCard).value.Id() == cardId then Some(f(old(heroCard).value)) else old(heroCard))
      ensures battlingDeck == Apply(old(battlingDeck), cardId, f) && handDeck == Apply(old(handDeck), cardId, f)
      ensures idleDeck == Apply(old(idleDeck), cardId, f) && deadDeck == Apply(old(deadDeck), cardId, f)
      ensures CardWithId(cardId) == if old(CardWithId(cardId)).Some? then Some(f(old(CardWithId(cardId)).value)) else None
      ensures forall other :: other != cardId ==> CardWithId(other) == old(CardWithId(other))
    {
      forall other | other != cardId
        ensures Find(Apply(battlingDeck, cardId, f), other) == Find(battlingDeck, other)
        ensures Find(Apply(handDeck, cardId, f), other) == Find(handDeck, other)
        ensures Find(Apply(idleDeck, cardId, f), other) == Find(idleDeck, other)
        ensures Find(Apply(deadDeck, cardId, f), other) == Find(deadDeck, other)
      {
        FindApplyOther(battlingDeck, cardId, other, f);
        FindApplyOther(handDeck, cardId, other, f);
        FindApplyOther(idleDeck, cardId, other, f);
        FindApplyOther(deadDeck, cardId, other, f);
      }
      if heroCard.Some? && heroCard.value.Id() == cardId {
        heroCard := Some(f(heroCard.value));
      }
      FindApply(battlingDeck, cardId, f);
      FindApply(handDeck, cardId, f);
      FindApply(idleDeck, cardId, f);
      FindApply(deadDeck, cardId, f);
      battlingDeck := Apply(battlingDeck, cardId, f);
      handDeck := Apply(handDeck, cardId, f);
      idleDeck := Apply(idleDeck, cardId, f);
      deadDeck := Apply(deadDeck, cardId, f);
    }

    /** Lowers the HP of the card `cardId` by exactly `damage`. */
    method InflictDamage(damage: int, cardId: CardId)
      modifies this`heroCard, this`battlingDeck, this`handDeck, this`idleDeck, this`deadDeck
      ensures CardWithId(cardId) == if old(CardWithId(cardId)).Some? then Some(Damaged(old(CardWithId(cardId)).value, damage)) else None
      ensures forall other :: other != cardId ==> CardWithId(other) == old(CardWithId(other))
    {
      UpdateCard(cardId, c => Damaged(c, damage));
    }

    /** Moves the battling card `cardId` to the dead deck. */
    method KillCard(cardId: CardId)
      modifies this`battlingDeck, this`deadDeck
      ensures Find(old(battlingDeck), cardId).Some? ==>
        battlingDeck == RemoveFirst(old(battlingDeck), cardId) &&
        deadDeck == old(deadDeck) + [Find(old(battlingDeck), cardId).value]
      ensures Find(old(battlingDeck), cardId).None? ==> battlingDeck == old(battlingDeck) && deadDeck == old(deadDeck)
      ensures forall other :: other != cardId ==> CardWithId(other) == old(CardWithId(other))
    {
      var c := Find(battlingDeck, cardId);
      if c.Some? {
        forall other | other != cardId
          ensures Find(RemoveFirst(battlingDeck, cardId), other) == Find(battlingDeck, other)
          ensures Find(deadDeck + [c.value], other) == Find(deadDeck, other)
        {
          FindRemoveFirstOther(battlingDeck, cardId, other);
          FindAppendOther(deadDeck, c.value, other);
        }
        battlingDeck := RemoveFirst(battlingDeck, cardId);
        deadDeck := deadDeck + [c.value];
      }
    }
  }

  function RemoveId(ids: seq<CardId>, id: CardId): (r: seq<CardId>)
    ensures forall x :: x in r <==> x in ids && x != id
  {
    if ids == [] then []
    else if ids[0] == id then RemoveId(ids[1..], id)
    else [ids[0]] + RemoveId(ids[1..], id)
  }

  predicate Distinct(players: seq<Player>)
  {
    forall i, j :: 0 <= i < j < |players| ==> players[i] != players[j]
  }

  function Half(order: seq<Card>): seq<Card>
  {
    order[..TakeCount(PlayableCardsPerPlayerCount / 2, |order|)]
  }

  function ConcatHalves(orders: seq<seq<Card>>): seq<Card>
  {
    if orders == [] then [] else ConcatHalves(orders[..|orders| - 1]) + Half(orders[|orders| - 1])
  }

  /**
   * Every player's shuffle-and-take-half, concatenated in player order; no players means
   * no pool at all (the aggregate's default).
   */
  method ShuffleAllAndTakeHalfCards(players: seq<Player>, shuffled: seq<seq<Card>>) returns (pool: Option<seq<Card>>)
    requires Distinct(players) && |shuffled| == |players|
    requires forall i :: 0 <= i < |players| ==> multiset(shuffled[i]) == multiset(players[i].idleDeck)
    modifies players`idleDeck
    ensures |players| == 0 ==> pool == None
    ensures |players| > 0 ==> pool == Some(ConcatHalves(shuffled))
    ensures forall i :: 0 <= i < |players| ==> players[i].idleDeck == shuffled[i][|Half(shuffled[i])|..]
  {
    if |players| == 0 {
      return None;
    }
    var all: seq<Card> := [];
    for k := 0 to |players|
      invariant all == ConcatHalves(shuffled[..k])
      invariant forall i :: 0 <= i < k ==> players[i].idleDeck == shuffled[i][|Half(shuffled[i])|..]
      invariant forall i :: k <= i < |players| ==> players[i].idleDeck == old(players[i].idleDeck)
    {
      var taken := players[k].ShuffleAllAndTakeHalfCards(shuffled[k]);
      assert shuffled[..k + 1][..k] == shuffled[..k];
      all := all + taken;
    }
    assert shuffled[..|players|] == shuffled;
    return Some(all);
  }

  /** Every player takes cards to hand, `n` each (default MaxHandCardsCount). */
  method TakeCardsToHand(players: seq<Player>, orders: seq<seq<Card>>, n: int := MaxHandCardsCount)
    requires Distinct(players) && |orders| == |players|
    requires forall i :: 0 <= i < |players| ==> multiset(orders[i]) == multiset(players[i].idleDeck)
    modifies players`handDeck, players`idleDeck
    ensures forall i :: 0 <= i < |players| ==>
      var k := TakeCount(Clamp(n, MaxHandCardsCount - old(|players[i].handDeck|)), |orders[i]|);
      players[i].handDeck == orders[i][..k] && players[i].idleDeck == orders[i][k..]
  {
    for k := 0 to |players|
      invariant forall i :: 0 <= i < k ==>
        var t := TakeCount(Clamp(n, MaxHandCardsCount - old(|players[i].handDeck|)), |orders[i]|);
        players[i].handDeck == orders[i][..t] && players[i].idleDeck == orders[i][t..]
      invariant forall i :: k <= i < |players| ==>
        players[i].handDeck == old(players[i].handDeck) && players[i].idleDeck == old(players[i].idleDeck)
    {
      players[k].TakeCardsToHand(orders[k], n);
    }
  }

  function HandSpeeds(players: seq<Player>): (r: seq<int>)
    reads players
    ensures |r| == |players| && forall i :: 0 <= i < |players| ==> r[i] == SpeedSum(players[i].handDeck)
  {
    seq(|players|, i reads players requires 0 <= i < |players| => SpeedSum(players[i].handDeck))
  }

  function HeroSpeeds(players: seq<Player>): (r: seq<int>)
    reads players
    ensures |r| == |players| && forall i :: 0 <= i < |players| ==> r[i] == HeroSpeed(players[i].heroCard)
  {
    seq(|players|, i reads players requires 0 <= i < |players| => HeroSpeed(players[i].heroCard))
  }

  function Pick(players: seq<Player>, order: seq<nat>): (r: seq<Player>)
    requires forall i :: 0 <= i < |order| ==> order[i] < |players|
    ensures |r| == |order| && forall i :: 0 <= i < |order| ==> r[i] == players[order[i]]
  {
    seq(|order|, i requires 0 <= i < |order| => players[order[i]])
  }

  /** The positions the stable descending sort by `keys` visits, with what it guarantees. */
  function SortedPositions(keys: seq<int>): (order: seq<nat>)
    ensures |order| == |keys| && forall i :: 0 <= i < |order| ==> order[i] < |keys|
    ensures forall i, j :: 0 <= i < j < |order| ==> order[i] != order[j]
    ensures forall i, j :: 0 <= i < j < |order| ==> keys[order[i]] >= keys[order[j]]
    ensures forall i, j :: 0 <= i < j < |order| && keys[order[i]] == keys[order[j]] ==> order[i] < order[j]
  {
    Ordering.OrderByDescendingCorrect(keys);
    Ordering.OrderByDescending(keys)
  }

  /** The players ordered by descending hand speed sum (stable). */
  function GetPlayersOrder(players: seq<Player>): seq<Player>
    reads players
  {
    Pick(players, SortedPositions(HandSpeeds(players)))
  }

  /** The players ordered by descending hero speed (stable). */
  function GetPlayersOrderedByHeroSpeed(players: seq<Player>): seq<Player>
    reads players
  {
    Pick(players, SortedPositions(HeroSpeeds(players)))
  }

  function Ids(players: seq<Player>): (r: seq<UserId>)
    ensures |r| == |players| && forall i :: 0 <= i < |players| ==> r[i] == players[i].id
  {
    seq(|players|, i requires 0 <= i < |players| => players[i].id)
  }

  /**
   * GetPlayersOrder picks every player exactly once, hand speed sums never increase along
   * the result, and players with equal sums keep their input order.
   */
  lemma GetPlayersOrderCorrect(players: seq<Player>)
    ensures var r := GetPlayersOrder(players);
      var order := SortedPositions(HandSpeeds(players));
      && |r| == |players| && (forall i :: 0 <= i < |r| ==> r[i] == players[order[i]])
      && (forall i, j :: 0 <= i < j < |r| ==> order[i] != order[j])
      && (forall i, j :: 0 <= i < j < |r| ==> SpeedSum(r[i].handDeck) >= SpeedSum(r[j].handDeck))
      && (forall i, j :: 0 <= i < j < |r| && SpeedSum(r[i].handDeck) == SpeedSum(r[j].handDeck) ==> order[i] < order[j])
  {
    var keys := HandSpeeds(players);
    var order := SortedPositions(keys);
    var r := GetPlayersOrder(players);
    forall i | 0 <= i < |r|
      ensures SpeedSum(r[i].handDeck) == keys[order[i]]
    {
    }
  }

  /** The same for hero speeds: the lay-down order. */
  lemma GetPlayersOrderedByHeroSpeedCorrect(players: seq<Player>)
    ensures var r := GetPlayersOrderedByHeroSpeed(players);
      var order := SortedPositions(HeroSpeeds(players));
      && |r| == |players| && (forall i :: 0 <= i < |r| ==> r[i] == players[order[i]])
      && (forall i, j :: 0 <= i < j < |r| ==> order[i] != order[j])
      && (forall i, j :: 0 <= i < j < |r| ==> HeroSpeed(r[i].heroCard) >= HeroSpeed(r[j].heroCard))
      && (forall i, j :: 0 <= i < j < |r| && HeroSpeed(r[i].heroCard) == HeroSpeed(r[j].heroCard) ==> order[i] < order[j])
  {
    var keys := HeroSpeeds(players);
    var order := SortedPositions(keys);
    var r := GetPlayersOrderedByHeroSpeed(players);
    forall i | 0 <= i < |r|
      ensures HeroSpeed(r[i].heroCard) == keys[order[i]]
    {
    }
  }

  /** GetPlayersOrder leaves out no player: with its length and distinct positions, a permutation. */
  lemma GetPlayersOrderPermutes(players: seq<Player>, k: nat)
    requires k < |players|
    ensures players[k] in GetPlayersOrder(players)
  {
    Ordering.OrderByDescendingCovers(HandSpeeds(players), k);
    var order := SortedPositions(HandSpeeds(players));
    var i :| 0 <= i < |order| && order[i] == k;
    assert GetPlayersOrder(players)[i] == players[k];
  }

  /** The lay-down order leaves out no player either. */
  lemma GetPlayersOrderedByHeroSpeedPermutes(players: seq<Player>, k: nat)
    requires k < |players|
    ensures players[k] in GetPlayersOrderedByHeroSpeed(players)
  {
    Ordering.OrderByDescendingCovers(HeroSpeeds(players), k);
    var order := SortedPositions(HeroSpeeds(players));
    var i :| 0 <= i < |order| && order[i] == k;
    assert GetPlayersOrderedByHeroSpeed(players)[i] == players[k];
  }
}
