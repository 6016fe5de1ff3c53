# Trinica match engine — a Dafny model

Trinica is a turn-based card game. This project models the core of its match engine.

A match moves through gated phases:

1. The players confirm the start.
2. Every player's shuffled idle deck gives up to 15 cards to a common pool.
3. Each player takes cards to hand.
4. The players lay cards to battle one by one, by descending hero speed.
5. They roll dice, replay or pass, assign dice to cards, and choose skills and targets.
6. A round then walks the battle sequence, performing one card's move at a time.

A centre card that survives six rounds ends the game. So does a hero that dies.

A turn-admission controller (the "action controller") guards every step. It says which actions are admissible now, for which players, and whether they must act in strict order. The client sees the game through a read-only projection. That projection hides opponents' hands, hides freshly laid battling cards while the lay-down phase lasts, and shows hidden cards by id only.

Modules, one file each:

- `Wrappers` (`wrappers.dfy`): `Option` and `Outcome`. An `Outcome` is either `Returned(ok)` or `Threw(fault)`; it models a C# method that either returns or throws a null-reference, index, missing-key, invalid-cast or duplicate-key exception.
- `CardBasics` (`card_basics.dfy`): ids, elements and dice faces. Also `Move`, the record effects modify, with its gate flags.
- `Statistics` (`statistics.dfy`): attack, HP, speed and power. Each has an original value, modifiers tagged by source id, and HP lost.
- `SpellCards` (`spell_card.dfy`): the spell card.
- `Cards` (`cards.dfy`): the closed union of card kinds, and the capability queries the game makes.
- `Combat` (`combat.dfy`): the damage rule, target filters, before-hook folds, and the records a move leaves behind.
- `ActionControl` (`action_control.dfy`): the admission state machine.
- `Ordering` (`ordering.dfy`): the stable descending sort behind `Players.GetPlayersOrder` (LINQ's `OrderByDescending`), reused for the lay-down order.
- `Players` (`player.dfy`): the `Player` class (decks, dice, per-card assignments) and the player-list extensions.
- `Gameplay` (`game.dfy`): the `Game` class, with every phase method, `PerformMove`, `PerformRound`, `StartRound` and `FinishRound`.
- `GameStateQuery` (`game_state_query.dfy`): the converters to the client view and the projection part of the state query.

Modelling choices:

- **Cards are values.** A card's statistics and effects change by replacing the card, by id, in the decks of the player who holds it (`Player.UpdateCard`).
- **Copies stand in for shared objects.** The round's battle sequence and the target lists hold copies of the cards. `Gameplay.Live` reads a card's current copy from its holder. Reference identity (`CenterCard == targetCard`) is modelled as equality of card ids.
- **Exceptions are outcomes.** Every place where the code throws — an unknown player, a missing pool, a missing assignment, a non-combat target, a duplicate target — returns `Threw(fault)`. No `requires` excludes these cases.
- **Randomness becomes parameters.** A shuffle or a random draw order is a supplied sequence, required to be a permutation of the deck. A single random pick is a nondeterministic choice (`:|`).
- **Effect hooks are opaque.** Before-hooks that hand an effect a `Move` or the round settings are supplied functions, folded in the order the code calls them. Every after-hook and round hook call is appended to the game's `trace`, together with each damage dealt, each spell consumed and each set of effects attached. This makes the exact call order part of what `Gameplay.Game.AfterStrike` and `Gameplay.Game.LogAfterHooks` are proved to do. `Gameplay.Game.PerformMove` states only that every new record belongs to the move's plan, so each AtAll and Receive call it logs carries the literal damage 23.

Behaviours of the code that are easy to misread:

- **Common pool size.** `Player.ShuffleAllAndTakeHalfCards` takes `PlayableCardsPerPlayerCount / 2` = 15 cards from each shuffled idle deck, whatever the deck's size. `FieldDeck.TakeCards` is not part of this model; the model assumes that it takes all the cards when fewer are left.
- **Lay-down size check.** `Player.LayCardsToBattle` rejects a request when `cards.Length > MaxBattlingCardsCount - cards.Length`. With the constant 6, that means more than three cards, whatever the battling deck already holds.
- **Hand refill.** `Player.TakeCardsToHand` replaces the hand with the taken cards rather than adding to it, so the cards the hand held before are dropped.
- **`ConfirmAssignDicesToCards`** is the one action that does not ask the controller first.
- **Spell kills.** A spell used as a Skill calls `KillCard` on itself once per target it reaches (Game.cs:356-357). The model moves the card to the dead deck on the first call. Every later call finds no battling card and changes nothing. The trace logs each call.
- **Game over after the item strip.** `PerformMove` checks `IsGameOver()` before it takes the attacker's item modifiers off (Game.cs:411-417). The strip can lower the attacker's HP to zero (`Cards.ItemStripCanKill`), and a dead Hero attacker ends the game. `IsRoundOngoing` includes `!IsGameOver()` (Game.cs:479-482), so the move then expects FinishRound, although the game is over. `Gameplay.Game.Conclude` states this order: FinishGame is forced by the game state before the strip.

## Model

| member | source | states |
|---|---|---|
| `Gameplay.Game.constructor` | src/Trinica.Entities/Gameplay/Game.cs:25-31 | a new game keeps the players and expects StartGame from all of them; no pool, centre card, round or trace yet |
| `Gameplay.Game.StartGame` | src/Trinica.Entities/Gameplay/Game.cs:33-39 | returns whether the controller admits the player; if not, the controller is unchanged; if so, the player is marked done and TakeCardsToCommonPool comes next |
| `Gameplay.Game.TakeCardsToCommonPool` | src/Trinica.Entities/Gameplay/Game.cs:41-49 | when admitted, the pool is the concatenation of every player's shuffled first half (none for no players), every idle deck keeps the rest, and TakeCardsToHand is expected from all players; when refused, nothing changes |
| `Gameplay.Game.TakeFromCommonPool` | src/Trinica.Entities/Gameplay/Game.cs:85-86 | an empty pool yields no card; otherwise one card leaves the pool (a multiset difference) |
| `Gameplay.Game.TakeCardsToHand` | src/Trinica.Entities/Gameplay/Game.cs:77-93 | refused: nothing changes; unknown player: a null-reference fault iff there is a request, after the first request has taken its card from a non-empty pool (the draw is the argument, evaluated before the call on the missing player), and no player changes; a known player with a missing pool: a fault iff some request draws from it; the hand, idle deck and pool keep their cards between them and the hand grows by at most one per request; success marks the player done toward CalculateLayDownOrderPerPlayer |
| `Gameplay.Game.TakeAll` | src/Trinica.Entities/Gameplay/Game.cs:83-90 | the requests in order; fails exactly when the pool is missing and some request draws from it; the cards of hand, idle deck and pool are preserved |
| `Gameplay.Game.TakeOne` | src/Trinica.Entities/Gameplay/Game.cs:85-89 | one request from the pool or from the idle deck; fails exactly on a pool request without a pool, and then changes nothing |
| `Gameplay.Game.CalculateLayDownOrderPerPlayer` | src/Trinica.Entities/Gameplay/Game.cs:95-105 | when admitted, the lay-down order is the players' ids by descending hero speed, and LayCardsToBattle is expected from them in that strict order |
| `Gameplay.FirstToCenter` | src/Trinica.Entities/Gameplay/Game.cs:115 | the index of the first request aimed at the centre, or none when no request is |
| `Gameplay.Except` | src/Trinica.Entities/Gameplay/Game.cs:119 | exactly the requests other than the given one, each once |
| `Gameplay.ExceptFirstSeenOrder` | src/Trinica.Entities/Gameplay/Game.cs:119 | the requests Except keeps come in the order of their first occurrence in the input |
| `Gameplay.Game.LayCardsToBattle` | src/Trinica.Entities/Gameplay/Game.cs:107-128 | refused: false, nothing changes; unknown player: a null fault, nothing changes; with a centre card in play, the first centre request's hand card becomes the centre card, leaves the hand and resets the count to 0, even when the lay is then rejected; more than three remaining cards: false; a missing hero with cards to lay: a null fault; success: the cards aimed at the hero leave the hand, their ids fill the hero's slots, and the player is marked done toward PlayDices; no other player changes |
| `Gameplay.Game.PlaceCenterCard` | src/Trinica.Entities/Gameplay/Game.cs:113-122 | with a centre card in play and a request aimed at the centre, the first such hand card moves to the centre, leaves the hand and the count restarts at 0, and the other requests remain to lay; otherwise nothing changes and every request remains |
| `Gameplay.Game.PlayDices` | src/Trinica.Entities/Gameplay/Game.cs:133-142 | refused: nothing changes; unknown player: a null-reference fault; otherwise the roll is stored and the player is marked done toward the replay-or-pass menu |
| `Gameplay.Game.PassReplayDices` | src/Trinica.Entities/Gameplay/Game.cs:144-150 | when admitted, the player is marked done toward dice assignment; otherwise nothing changes |
| `Gameplay.Game.ReplayDices` | src/Trinica.Entities/Gameplay/Game.cs:152-161 | like PlayDices with the new roll, then on toward dice assignment |
| `Gameplay.Game.AssignDiceToCard` | src/Trinica.Entities/Gameplay/Game.cs:163-173 | refused: false and nothing changes; unknown player: a fault, nothing changes; otherwise true exactly when the dice index is in the roll, and then only the card's assignment changes, recording that dice face and index; no other player changes |
| `Gameplay.Game.RemoveDiceFromCard` | src/Trinica.Entities/Gameplay/Game.cs:175-184 | refused: false and nothing changes; unknown player: a fault; a known player: true, the card's dice face and index are cleared and no other assignment changes; no other player changes |
| `Gameplay.Game.ConfirmAssignDicesToCards` | src/Trinica.Entities/Gameplay/Game.cs:186-189 | without asking the controller, always true; marks the player done toward the skill-and-target menu |
| `Gameplay.Game.ChooseCardSkill` | src/Trinica.Entities/Gameplay/Game.cs:191-200 | refused: false and nothing changes; on success only the card's skill index changes, every other assignment field and assignment stays; no other player changes |
| `Gameplay.Game.AssignCardTarget` | src/Trinica.Entities/Gameplay/Game.cs:202-211 | refused: false and nothing changes; on success the target is appended to the card's targets unless already there, and nothing else in the assignments changes; no other player changes |
| `Gameplay.Game.RemoveCardTarget` | src/Trinica.Entities/Gameplay/Game.cs:213-222 | refused: false and nothing changes; on success the target is taken out of the card's targets, the other targets and assignments stay; no other player changes |
| `Gameplay.Game.ConfirmCardTargets` | src/Trinica.Entities/Gameplay/Game.cs:224-230 | when admitted, the player is marked done toward StartRound; otherwise nothing changes |
| `Gameplay.Game.RunRoundStart` | src/Trinica.Entities/Gameplay/Game.cs:65-72 | the round settings are the fold of every combat card's OnRoundStart hooks in battle order, and each call is logged |
| `Gameplay.Game.StartRound` | src/Trinica.Entities/Gameplay/Game.cs:51-75 | a centre card ages by exactly one round; at six it requests FinishGame and leaves the round cursor, settings and trace alone; otherwise the sequence becomes the round, the cursor goes to 0, the round-start hooks run and PerformRound/PerformMove are expected; when refused, nothing changes |
| `Gameplay.Game.Prelude` | src/Trinica.Entities/Gameplay/Game.cs:239-264 | no round: null fault; cursor past the end: index fault; a resolved move has the card under the cursor, its holder and assignment, the listed non-excluded targets (or the forced target), only combat targets, and Skill exactly when the dice face is an element |
| `Gameplay.Game.PreludeExits` | src/Trinica.Entities/Gameplay/Game.cs:239-262 | each early exit of the move: no holder, a null fault; no assignment, a missing key; a listed non-combat card, an invalid cast; no allowed target or a non-combat card, true; no dice, false; otherwise the move proceeds |
| `Gameplay.Game.PrepareMoves` | src/Trinica.Entities/Gameplay/Game.cs:266-317 | a target listed twice is a duplicate key; otherwise every target has its move |
| `Gameplay.Game.UseTargetItems` | src/Trinica.Entities/Gameplay/Game.cs:272-277 | with distinct targets, each held target's copy gets its items' statistics merged in; cards that are not targets and players that hold no target do not change |
| `Gameplay.Game.AttackHit` | src/Trinica.Entities/Gameplay/Game.cs:330-341 | the holder's copy loses exactly the move's damage and no other card changes; reports exactly when a Hero target died; the count resets to 0 exactly when a non-Hero target that died is the centre card, and otherwise keeps its value |
| `Gameplay.Game.SkillHit` | src/Trinica.Entities/Gameplay/Game.cs:349-373 | power damage only when the skill deals it, a spell consumed, then the effects when still enabled; the records are a prefix of the full hit, and all of it when the hit completes; a dead Hero target stops it; only the target (and a spell attacker) changes; the count resets exactly when the hit completes and the target that died is the centre card |
| `Gameplay.Game.SkillDamage` | src/Trinica.Entities/Gameplay/Game.cs:349-363 | the power damage and spell step of a hit: the records are the damage (when dealt) and the spell's kill; without a holder, only the spell's kill; only the target and a spell attacker change |
| `Gameplay.Game.AttachEffects` | src/Trinica.Entities/Gameplay/Game.cs:369-373 | the target's copy gets the skill's effects appended |
| `Gameplay.Game.Strike` | src/Trinica.Entities/Gameplay/Game.cs:322-377 | a disabled move changes nothing; an Attack yields one damage record per target, a Skill the skill records per target; the records are always a prefix of those, all of them when the strike completes; a dead Hero target or a target nobody holds ends it; with distinct targets (and a spell that is not its own target) the count is 0 exactly when the centre card was a target that fell |
| `Gameplay.Game.AttackAll` | src/Trinica.Entities/Gameplay/Game.cs:324-343 | every target takes its own move's damage, in order, until a Hero target dies; the records are a prefix of the per-target records; with distinct targets the count is 0 exactly when the centre card was a target that fell |
| `Gameplay.Game.AttackStep` | src/Trinica.Entities/Gameplay/Game.cs:328-341 | one loop turn of the Attack branch: the records of the first i + 1 targets; the count reset only for this target; other targets' fall unchanged |
| `Gameplay.Game.SkillAll` | src/Trinica.Entities/Gameplay/Game.cs:345-376 | the skill hits each target whose move keeps skills enabled, in order, until a Hero target dies; the records are a prefix of the per-target records; the count is 0 exactly when the centre card was a target that fell, for distinct targets and a spell that is not its own target |
| `Gameplay.Game.SkillStep` | src/Trinica.Entities/Gameplay/Game.cs:347-375 | one loop turn of the Skill branch: a target with skills disabled adds nothing, otherwise the Skill at it; the records and the count, as the loop needs them, for the first i + 1 targets |
| `Gameplay.Game.SkillAt` | src/Trinica.Entities/Gameplay/Game.cs:347-375 | the Skill at target i: the records of the first i + 1 targets when it completes, a prefix of all records otherwise; only target i (and a spell attacker) change; the count resets exactly when that target fell as the centre card |
| `Gameplay.Game.LogAfterHooks` | src/Trinica.Entities/Gameplay/Game.cs:379-409 | exactly the after-hook calls — AtAll, then AtSingle per target, then Receive per target — are appended, on the current copies of attacker and targets |
| `Gameplay.Game.Resolve` | src/Trinica.Entities/Gameplay/Game.cs:266-423 | a duplicate-key fault iff two targets share an id; a null fault only for a target nobody holds; a fault leaves the controller alone; success hands on to the end of the game, the end of the round or the next move |
| `Gameplay.Game.Engage` | src/Trinica.Entities/Gameplay/Game.cs:322-423 | a fault exactly when a target nobody holds stopped the strike, and then the controller stays; a dead Hero target expects only FinishGame and no after-hook is recorded; a completed strike leaves exactly its records followed by hook calls only; otherwise the move moves on |
| `Gameplay.Game.AfterStrike` | src/Trinica.Entities/Gameplay/Game.cs:379-423 | exactly the after-hook calls on the copies before the move's end are appended, and nothing else; a game already over expects only FinishGame and leaves the attacker alone; otherwise the attacker's copy loses its item modifiers in every deck, no other card of its holder changes, and FinishRound or PerformMove is expected as the round is over or goes on |
| `Gameplay.Game.Conclude` | src/Trinica.Entities/Gameplay/Game.cs:411-423 | a game already over expects only FinishGame and leaves the attacker alone; otherwise the attacker's copy loses its item modifiers (in every deck) and nothing else of its holder changes, then FinishRound is expected when the round is over and PerformMove while it goes on |
| `Gameplay.Game.PerformMove` | src/Trinica.Entities/Gameplay/Game.cs:234-423 | refused: false and nothing changes; an admitted move advances the cursor by one when it points into the sequence; the pre-checks fault or return exactly as Prelude says and change nothing else; a resolved move leaves only records of its plan, damages only targets, attaches effects only by Skill, resets the centre count only for a targeted centre card, and moves on |
| `Gameplay.Game.PerformRound` | src/Trinica.Entities/Gameplay/Game.cs:425-437 | refused: nothing changes; keeps an existing battle sequence or takes the given one; performs moves until the round is over; true only once it is |
| `Gameplay.Game.FinishRound` | src/Trinica.Entities/Gameplay/Game.cs:439-454 | refused: nothing changes; no sequence: a null fault; otherwise each OnRoundFinish call on the current copies is logged and TakeCardsToHand is expected from all players |
| `Gameplay.Game.FinishGame` | src/Trinica.Entities/Gameplay/Game.cs:460-466 | when admitted, only the "None" action is left |
| `Gameplay.EffectsRoundStart` | src/Trinica.Entities/Gameplay/Game.cs:70-71 | one card's OnRoundStart hooks folded and logged in effect order |
| `Gameplay.RoundStartHooks` | src/Trinica.Entities/Gameplay/Game.cs:64-72 | the OnRoundStart hooks of the combat cards only, in battle order |
| `Gameplay.AfterAtAllHooks` | src/Trinica.Entities/Gameplay/Game.cs:379-385 | one AfterMoveAtAll call per attacker effect, each with a new move of damage 23 |
| `Gameplay.AfterAtSingleHooks` | src/Trinica.Entities/Gameplay/Game.cs:387-397 | per attacker effect and per target, a move whose damage is the damage rule's value |
| `Gameplay.AfterReceiveHooks` | src/Trinica.Entities/Gameplay/Game.cs:399-409 | per target and per own effect, a move of damage 23 |
| `Gameplay.AfterHooks` | src/Trinica.Entities/Gameplay/Game.cs:379-409 | the three after-hook passes, in that order |
| `Gameplay.StrikeEventsUnhooked` | src/Trinica.Entities/Gameplay/Game.cs:322-377 | the damage step records no hook call |
| `Gameplay.PickKey` | src/Trinica.Entities/Gameplay/Game.cs:254 | the prioritized target picked at random is one of the map's entries |
| `Gameplay.PlayerOfId` | src/Trinica.Entities/Gameplay/Game.cs:82 | a found player has the id; none is returned exactly when no player has it |
| `Gameplay.PlayerWithCard` | src/Trinica.Entities/Gameplay/Game.cs:242 | a found player holds the card; none exactly when no player does |
| `Gameplay.Holders` | src/Trinica.Entities/Gameplay/Game.cs:332 | each target's holder, position by position |
| `Gameplay.BattlingCards` | src/Trinica.Entities/Gameplay/Game.cs:64 | exactly the battling cards of the players: each is in the pool, and every card in it is some player's |
| `Gameplay.EnemyBattlingCards` | src/Trinica.Entities/Gameplay/Game.cs:249-250 | exactly the battling cards of the other players |
| `Gameplay.EnemyCombatCards` | src/Trinica.Entities/Gameplay/Game.cs:250 | exactly the combat cards among them |
| `Gameplay.Live` | src/Trinica.Entities/Gameplay/Game.cs:353-355 | the holder's current copy of the card when it has one, else the card; always a copy of the same card |
| `Gameplay.LiveEffects` | src/Trinica.Entities/Gameplay/Game.cs:310 | each target's current effects |
| `Gameplay.LiveCards` | src/Trinica.Entities/Gameplay/Game.cs:444-450 | the current copy of each card of the battle sequence |
| `Combat.CalculateDamageRule` | src/Trinica.Entities/Gameplay/Game.cs:484-495 | the defender never matters; a spell's Skill deals its fixed damage; another card's Skill deals its current power; an Attack deals its current attack |
| `Combat.SpellDamageIgnoresStats` | src/Trinica.Entities/Gameplay/Game.cs:486-487 | a spell's Skill damage is the same whatever its statistics |
| `Combat.SpellHarmsIffPowerDamage` | src/Trinica.Entities/Gameplay/Cards/CardsPerType/SpellCard.cs:47-50 | for a spell the damage gate and the damage rule agree: power damage exactly when the rule's damage is positive |
| `Combat.Filter` | src/Trinica.Entities/Gameplay/Game.cs:244-245 | the target filters keep exactly the cards that pass, and never more cards |
| `Combat.FoldAtAllAppend` | src/Trinica.Entities/Gameplay/Game.cs:286-287 | running the hooks of two effect lists is running the first, then the second |
| `Combat.CardHookEvents` | src/Trinica.Entities/Gameplay/Game.cs:70-71 | one round hook call per effect, in order |
| `Combat.RoundHookEvents` | src/Trinica.Entities/Gameplay/Game.cs:444-451 | only calls of the given round hook, with no other card and no move |
| `Combat.AttackEvents` | src/Trinica.Entities/Gameplay/Game.cs:328-342 | one damage record per target with that target's move damage |
| `Combat.SkillEventsAreRecords` | src/Trinica.Entities/Gameplay/Game.cs:347-375 | a Skill damages only targets and only with power damage, consumes only a spell, and attaches the skill's effects only to targets |
| `Combat.AfterAllEvents` | src/Trinica.Entities/Gameplay/Game.cs:380-385 | AfterMoveAtAll always receives damage 23 |
| `Combat.AfterSingleFor` | src/Trinica.Entities/Gameplay/Game.cs:388-397 | AfterMoveAtSingleTarget receives the damage rule's value at every target |
| `Combat.AfterReceiveFor` | src/Trinica.Entities/Gameplay/Game.cs:403-408 | AfterReceive always receives damage 23 |
| `Combat.AfterEventsAreRecords` | src/Trinica.Entities/Gameplay/Game.cs:379-409 | every after-hook call belongs to the attacker or a target, with the damage the code hands over |
| `Combat.RunBeforeMoveAtAll` | src/Trinica.Entities/Gameplay/Game.cs:286-287 | the shared move after the attacker's BeforeMoveAtAll hooks, in effect order |
| `Combat.BuildMoves` | src/Trinica.Entities/Gameplay/Game.cs:289-298 | a duplicate key iff two targets share an id; otherwise one fresh move per target with the shared damage |
| `Combat.RunBeforeMoveAtSingleTarget` | src/Trinica.Entities/Gameplay/Game.cs:300-305 | every target's move after the attacker's BeforeMoveAtSingleTarget hooks; no move added or lost |
| `Combat.RunBeforeReceive` | src/Trinica.Entities/Gameplay/Game.cs:307-312 | every target's move after that target's own BeforeReceive hooks |
| `CardBasics.NewMove` | src/Trinica.Entities/Gameplay/Game.cs:281-285 | a new move carries the damage and the type, with every gate enabled |
| `Cards.Card.WithMoreEffects` | src/Trinica.Entities/Gameplay/Game.cs:372 | the combat card's effects grow by the appended ones; nothing else changes |
| `Cards.Damaged` | src/Trinica.Entities/Gameplay/Game.cs:333 | a card with statistics loses exactly the damage in calculated HP; id and effects stay |
| `Cards.WithItemModifiers` | src/Trinica.Entities/Gameplay/Game.cs:267-270 | the statistics become every item's statistics merged in, in item order, each tagged with the item's id; id, kind, effects and items stay |
| `Cards.WithoutItemModifiers` | src/Trinica.Entities/Gameplay/Game.cs:415-417 | the statistics lose every modifier tagged with one of the items' ids; id, kind, effects and items stay |
| `Cards.ItemsRoundTrip` | src/Trinica.Entities/Gameplay/Game.cs:267-270 | merging distinct items in and taking them all out restores statistics none of them had touched |
| `Cards.CardItemsRoundTrip` | src/Trinica.Entities/Gameplay/Game.cs:267-270 | the same round trip for a whole card |
| `Cards.ItemStripCanKill` | src/Trinica.Entities/Gameplay/Game.cs:411-419 | the strip after the game-over check can kill the attacker: a card alive with its item's HP is dead once that HP comes out |
| `Cards.RemoveThroughModifyAll` | src/Trinica.Entities/Gameplay/Game.cs:267-270 | taking off a source no item carries commutes with merging all the items in |
| `Statistics.Modify` | src/Trinica.Entities/Gameplay/Game.cs:270 | each calculated statistic becomes its value without the item's earlier modifier plus the item's value |
| `Statistics.RemoveAll` | src/Trinica.Entities/Gameplay/Game.cs:317 | no modifier of the item remains |
| `Statistics.ModifyThenRemoveAllRestores` | src/Trinica.Entities/Gameplay/Game.cs:414-417 | using and unusing an item restores the statistics exactly |
| `Statistics.ModifyIdempotent` | src/Trinica.Entities/Gameplay/Game.cs:267-270 | applying an item twice is applying it once |
| `Statistics.ModifyAdds` | src/Trinica.Entities/Gameplay/Game.cs:270 | on statistics the item has not touched, the item adds its values |
| `Statistics.RemoveAllModifyCommute` | src/Trinica.Entities/Gameplay/Game.cs:414-417 | taking one item's modifiers off commutes with merging another item's in |
| `Statistics.WithoutCommutes` | src/Trinica.Entities/Gameplay/Game.cs:414-417 | filtering out two sources gives the same list in either order |
| `Statistics.Damaged` | src/Trinica.Entities/Gameplay/Game.cs:333 | calculated HP drops by exactly the damage; the other statistics stay |
| `SpellCards.NewSpellCard` | src/Trinica.Entities/Gameplay/Cards/CardsPerType/SpellCard.cs:14-24 | stores the id, effects, required elements and damage, default 0 |
| `SpellCards.NewNamedSpellCard` | src/Trinica.Entities/Gameplay/Cards/CardsPerType/SpellCard.cs:26-40 | the same, plus the name, race, class and faction |
| `SpellCards.PowerDamageIgnoresSkillIndex` | src/Trinica.Entities/Gameplay/Cards/CardsPerType/SpellCard.cs:50 | every skill index deals power damage exactly when the spell does damage |
| `SpellCards.EffectsIgnoreSkillIndex` | src/Trinica.Entities/Gameplay/Cards/CardsPerType/SpellCard.cs:52 | every skill index yields all the stored effects in order |
| `SpellCards.DefaultDamageSpellIsHarmless` | src/Trinica.Entities/Gameplay/Cards/CardsPerType/SpellCard.cs:14-24 | a spell built with the default damage never deals power damage |
| `SpellCards.IdProjectionsAgree` | src/Trinica.Entities/Gameplay/Cards/CardsPerType/SpellCard.cs:44-54 | both id projections and ToString give the spell id's value |
| `ActionControl.Names` | src/Trinica.UseCases/Gameplay/GetGameStateQuery.cs:219 | the permitted action names, in order |
| `ActionControl.FirstUndoneOf` | src/Trinica.Entities/Gameplay/Game.cs:104 | the first player not yet done, or none exactly when all are done |
| `ActionControl.SetNextExpectedAction` | src/Trinica.Entities/Gameplay/Game.cs:48 | the new state permits exactly the given actions for exactly the given players, nobody done |
| `ActionControl.MarkDone` | src/Trinica.Entities/Gameplay/Game.cs:38 | the player is recorded on every current action; names, players and order flag stay |
| `ActionControl.DoneAfterMark` | src/Trinica.Entities/Gameplay/Game.cs:38 | after marking, a player is done iff it was done before, or it is the marked player and some current action is Single |
| `ActionControl.BarrierOpen` | src/Trinica.Entities/Gameplay/Game.cs:92 | for any expected players and any completers that leave one expected player out, the phase stays open: same actions and players, exactly the completers done, and without strict order exactly the expected players not yet done admitted |
| `ActionControl.BarrierCloses` | src/Trinica.Entities/Gameplay/Game.cs:92 | the completion of the last expected player moves exactly to the next state |
| `ActionControl.FirstUndoneAt` | src/Trinica.Entities/Gameplay/Game.cs:104 | the first undone player is the one after a run of done players |
| `ActionControl.OrderedTurns` | src/Trinica.Entities/Gameplay/Game.cs:104 | under strict order over distinct players, after the first k completed in turn, exactly the next one is admitted |
| `ActionControl.DoneInSystemPhaseAdvances` | src/Trinica.Entities/Gameplay/Game.cs:186-189 | in a phase that expects nobody, completing it for any player moves straight on, though no player could be admitted |
| `Players.TakeCount` | src/Trinica.Entities/Gameplay/Player.cs:25 | a take yields the requested count, capped by the cards available, and nothing for a non-positive request |
| `Players.Clamp` | src/Trinica.Entities/Gameplay/Player.cs:31 | the request bounded above by the room left |
| `Players.Find` | src/Trinica.Entities/Gameplay/Game.cs:118 | the first card with the id, or none exactly when the deck has none |
| `Players.WithoutIds` | src/Trinica.Entities/Gameplay/Player.cs:42 | exactly the deck's cards whose ids are not listed |
| `Players.RemoveFirst` | src/Trinica.Entities/Gameplay/Game.cs:118 | the deck with the found card taken out once |
| `Players.CardsForHero` | src/Trinica.Entities/Gameplay/Player.cs:41 | exactly the source ids of the requests aimed at the hero |
| `Players.RemoveId` | src/Trinica.Entities/Gameplay/Game.cs:219 | the ids other than the removed one |
| `Players.Player.ShuffleAllAndTakeHalfCards` | src/Trinica.Entities/Gameplay/Player.cs:22-26 | takes the first 15 cards of the shuffled idle deck (all of them when fewer), keeps the rest, loses no card |
| `Players.Player.TakeCardsToHand` | src/Trinica.Entities/Gameplay/Player.cs:28-33 | the request is clamped by the room left in the hand, and the first taken cards of the shuffled idle deck replace the hand, so the cards it held before are dropped; the new hand and idle deck together are exactly the old idle deck |
| `Players.Player.LayCardsToBattle` | src/Trinica.Entities/Gameplay/Player.cs:35-48 | more than three cards: false, nothing changes; no hero and some cards: a null fault; otherwise the cards aimed at the hero leave the hand and their ids fill the hero's slots |
| `Players.Player.AddCardToHand` | src/Trinica.Entities/Gameplay/Game.cs:86 | a drawn card joins the hand; no card, no change |
| `Players.Player.TakeCardToHand` | src/Trinica.Entities/Gameplay/Game.cs:89 | one idle card moves to the hand, none from an empty idle deck |
| `Players.Player.TakeCardFromHand` | src/Trinica.Entities/Gameplay/Game.cs:118 | the first hand card with the id leaves the hand and is returned |
| `Players.Player.PlayDices` | src/Trinica.Entities/Gameplay/Game.cs:139 | the roll is stored |
| `Players.Player.AssignDiceToCard` | src/Trinica.Entities/Gameplay/Game.cs:169 | succeeds iff the index is in the roll; then only that card's assignment records the dice |
| `Players.Player.RemoveDiceFromCard` | src/Trinica.Entities/Gameplay/Game.cs:181 | the card's dice are cleared; no other assignment changes |
| `Players.Player.ChooseCardSkill` | src/Trinica.Entities/Gameplay/Game.cs:197 | only the card's skill index changes |
| `Players.Player.AssignCardTarget` | src/Trinica.Entities/Gameplay/Game.cs:208 | the target is among the card's targets; other cards' assignments stay |
| `Players.Player.RemoveCardTarget` | src/Trinica.Entities/Gameplay/Game.cs:219 | the target is gone from the card's targets; other cards' assignments stay |
| `Players.Player.UpdateCard` | src/Trinica.Entities/Gameplay/Game.cs:267-277 | every copy of the card this player holds is replaced by its update, in hero and all four decks; every other card id reads as before |
| `Players.Player.InflictDamage` | src/Trinica.Entities/Gameplay/Game.cs:333 | the player's copy loses exactly the damage |
| `Players.Player.KillCard` | src/Trinica.Entities/Gameplay/Game.cs:358 | a battling card moves to the dead deck; an absent one changes nothing |
| `Players.ShuffleAllAndTakeHalfCards` | src/Trinica.Entities/Gameplay/Player.cs:53-56 | the pool is every player's taken half, concatenated in player order; no players, no pool |
| `Players.TakeCardsToHand` | src/Trinica.Entities/Gameplay/Player.cs:58-59 | every player takes cards to hand with the same count, 6 by default |
| `Players.HandSpeeds` | src/Trinica.Entities/Gameplay/Player.cs:62 | each player's hand speed sum, position by position |
| `Players.Ids` | src/Trinica.Entities/Gameplay/Game.cs:102 | the players' ids, in order |
| `Players.SortedPositions` | src/Trinica.Entities/Gameplay/Player.cs:62 | distinct positions with non-increasing keys, ties in input order |
| `Players.GetPlayersOrderCorrect` | src/Trinica.Entities/Gameplay/Player.cs:61-62 | every player taken once by position, hand speed sums non-increasing, ties in input order |
| `Players.GetPlayersOrderPermutes` | src/Trinica.Entities/Gameplay/Player.cs:61-62 | no player is left out |
| `Players.GetPlayersOrderedByHeroSpeedCorrect` | src/Trinica.Entities/Gameplay/Game.cs:100-102 | the lay-down order: by hero speed, non-increasing, stable |
| `Players.GetPlayersOrderedByHeroSpeedPermutes` | src/Trinica.Entities/Gameplay/Game.cs:100-102 | no player is left out of the lay-down order |
| `Ordering.SortPermutes` | src/Trinica.Entities/Gameplay/Player.cs:62 | the sort keeps exactly the entries it was given |
| `Ordering.SortSorted` | src/Trinica.Entities/Gameplay/Player.cs:62 | keys never increase along the sorted entries |
| `Ordering.SortStable` | src/Trinica.Entities/Gameplay/Player.cs:62 | equal keys keep their input order |
| `Ordering.OrderByDescendingCorrect` | src/Trinica.Entities/Gameplay/Player.cs:62 | distinct in-range positions, keys non-increasing, ties in input order |
| `Ordering.OrderByDescendingCovers` | src/Trinica.Entities/Gameplay/Player.cs:62 | every position occurs |
| `GameStateQuery.ToTypeString` | src/Trinica.UseCases/Gameplay/GetGameStateQuery.cs:118-127 | the tag is one of the five kind names, and empty exactly for an unknown kind |
| `GameStateQuery.StatToDto` | src/Trinica.UseCases/Gameplay/GetGameStateQuery.cs:133 | the original and calculated value of a statistic |
| `GameStateQuery.StatisticsToDto` | src/Trinica.UseCases/Gameplay/GetGameStateQuery.cs:132-136 | attack, HP, speed and power each converted from the same statistic |
| `GameStateQuery.CardDtoOf` | src/Trinica.UseCases/Gameplay/GetGameStateQuery.cs:148-184 | the card's id; reversed exactly when forced or freshly laid, and then only the id |
| `GameStateQuery.CardToDto` | src/Trinica.UseCases/Gameplay/GetGameStateQuery.cs:148-152 | no card, no view; otherwise the card's view |
| `GameStateQuery.DeckToDto` | src/Trinica.UseCases/Gameplay/GetGameStateQuery.cs:141-143 | one view per card, same count, same order |
| `GameStateQuery.VisibleCardIsShown` | src/Trinica.UseCases/Gameplay/GetGameStateQuery.cs:162-183 | a face-up view is not reversed, has an empty description, and shows the card's metadata, kind and calculated statistics, statistics present iff the card has them |
| `GameStateQuery.HiddenCardsLookAlike` | src/Trinica.UseCases/Gameplay/GetGameStateQuery.cs:154-160 | a face-down view depends on the id alone |
| `GameStateQuery.HiddenDecksLookAlike` | src/Trinica.UseCases/Gameplay/GetGameStateQuery.cs:141-160 | a face-down deck shows nothing but its ids in order |
| `GameStateQuery.AssignmentToDto` | src/Trinica.UseCases/Gameplay/GetGameStateQuery.cs:232-237 | every field of the assignment, with missing dice and source as absent |
| `GameStateQuery.AssignmentsToDto` | src/Trinica.UseCases/Gameplay/GetGameStateQuery.cs:239-240 | one view per assignment |
| `GameStateQuery.DiceValues` | src/Trinica.UseCases/Gameplay/GetGameStateQuery.cs:204 | each rolled face's value, in order |
| `GameStateQuery.PlayerToDto` | src/Trinica.UseCases/Gameplay/GetGameStateQuery.cs:189-206 | the id, the hero face up, the battling deck hidden where forced or freshly laid, the hand hidden only where forced, whether idle cards remain, the dice and the assignments |
| `GameStateQuery.PlayersToDtos` | src/Trinica.UseCases/Gameplay/GetGameStateQuery.cs:208-213 | one view per player, in order |
| `GameStateQuery.NotOfId` | src/Trinica.UseCases/Gameplay/GetGameStateQuery.cs:38 | exactly the players with other ids |
| `GameStateQuery.SingleCompleters` | src/Trinica.UseCases/Gameplay/GetGameStateQuery.cs:221-223 | exactly the players who completed some Single action |
| `GameStateQuery.Distinct` | src/Trinica.UseCases/Gameplay/GetGameStateQuery.cs:224 | the same players, each once |
| `GameStateQuery.Values` | src/Trinica.UseCases/Gameplay/GetGameStateQuery.cs:225 | the ids' values in order |
| `GameStateQuery.ActionNames` | src/Trinica.UseCases/Gameplay/GetGameStateQuery.cs:219 | the permitted actions' names in order |
| `GameStateQuery.ControllerToDto` | src/Trinica.UseCases/Gameplay/GetGameStateQuery.cs:218-227 | the action names, the expected players and the order flag |
| `GameStateQuery.AlreadyMadeIsDone` | src/Trinica.UseCases/Gameplay/GetGameStateQuery.cs:221-226 | a player is listed as having acted iff the controller counts it done, and each is listed once |
| `GameStateQuery.View` | src/Trinica.UseCases/Gameplay/GetGameStateQuery.cs:28-51 | a missing pool throws; otherwise the id, the version, the state, whether the pool has cards, and the centre card's view |
| `GameStateQuery.OwnView` | src/Trinica.UseCases/Gameplay/GetGameStateQuery.cs:33-36 | the requester's view when some player has the id, else none |
| `GameStateQuery.ViewParts` | src/Trinica.UseCases/Gameplay/GetGameStateQuery.cs:29-39 | the requester's view and the enemies' views, with fresh-laid hiding only in the lay-down phase |
| `GameStateQuery.ViewShowsOwnCards` | src/Trinica.UseCases/Gameplay/GetGameStateQuery.cs:29-36 | the requester's hand and hero face up; a battling card face down exactly when the lay-down phase is on and the card was freshly laid |
| `GameStateQuery.ViewHidesEnemyHands` | src/Trinica.UseCases/Gameplay/GetGameStateQuery.cs:38-39 | every other player has a view among the enemies; each enemy view has the hand face down and the hero face up |

## Left out

- **The action controller's internals.** That class is not part of this model. Its semantics are taken from its use: permitted names, expected players, completers per action, a strict-order flag, and which actions may be repeated. The repeat policy is an assumption: the free-form sub-actions of the dice and target phases may be repeated, every other action is Single.
- **Randomness.** `System.Random` and every shuffle, draw and pick are not modelled. Supplied permutations or nondeterministic choices stand in for them. `StartRound` and `PerformRound` receive the speed-ordered battle sequence (`GetBattlingCardsBySpeed`) as a permutation of the battling cards; the speed ordering itself is not stated.
- **Effect hook bodies.** They are not part of this model. Before-hooks and OnRoundStart are opaque functions. The after-hooks and OnRoundFinish are only logged; whatever they would change is not modelled.
- **Repository, async and mediator plumbing** around the state query. The loaded game is an input value.
- **Game fields the query reads.** `FreshLaidCards`, `Version` and the centre card's owner are read by the query but are absent from the game aggregate's source. They are parameters of `GameStateQuery.View`. `Version` is unbounded, where the source uses a 32-bit unsigned integer.
- **Card classes, `FieldDeck` and `StatisticPointGroup`.** These are not part of this model. They are modelled from their call sites:
  - a card is a datatype;
  - a deck is a sequence;
  - a statistic is its original value, tagged modifiers and HP lost.
- **Missing parts of `Player.cs`.** The methods `Game.cs` calls on a player but the file lacks are modelled from their call sites: `InflictDamage`, `IsCardDead`, `KillCard`, the assignments, `AddCardToHand`, `TakeCardToHand`, `TakeCardFromHand` and `PlayDices`.
- `Players.Player.LayCardsToBattle`: the battling deck is left unchanged, because line 45 of `Player.cs` is cut off after `BattlingDeck +=`.
- `Gameplay.Game.ReplayDices`: the count `n` of dice to replay does not enter the model. The new roll is supplied whole.
- `Gameplay.Game.PrepareMoves`: states only the duplicate-key check and that every target gets a move. The item-modifier updates and the hook folds are stated by the members it calls (`Combat.RunBeforeMoveAtAll`, `Combat.RunBeforeMoveAtSingleTarget`, `Combat.RunBeforeReceive`, `Players.Player.UpdateCard`), not by its own contract.
- `Gameplay.Game.PerformMove`: the players' new statistics are described through the trace records and `Gameplay.Game.AttackHit`, not as a closed formula over the old state.
- `Gameplay.Game.PerformRound`: states the battle sequence it uses and that a true result ends the round. It does not state each move's effect.
- `Gameplay.Game.TakeCardsToHand`: does not state which card a random draw takes. For a known player it states that no card is lost. For an unknown player whose first request draws from a non-empty pool, one pool card is lost: it is drawn before the call on the missing player faults (Game.cs:86).
- `Statistics.SetModifier`: assumes that a second modifier with the same source id replaces the first. `StatisticPointGroup.Modify` is not part of this model, so whether modifiers accumulate instead is not known.
- `Statistics.Modify`: rests on the same replace assumption. It decides what a target's statistics become when the target is hit again, because the targets' item statistics are merged in at every move (Game.cs:272-277) and never taken out.
- `Statistics.ModifyIdempotent`: holds only under the replace assumption.
- `Gameplay.Except`: the one-element `Except` extension used at Game.cs:119 is not part of this repository. It is modelled with the semantics of LINQ's `Except` on a set of one: every other request, duplicates dropped, in first-seen order.
- `Gameplay.Game.Strike`: the centre count is stated exactly only for distinct targets and, for a Skill, a spell attacker that is not among its own targets. Otherwise it is only stated to be unchanged or reset because the centre card was a target. Resolve throws on duplicate targets before the strike.
- `Gameplay.Game.AttackAll`: the exact centre count needs distinct targets, as for Strike.
- `Gameplay.Game.SkillAll`: the exact centre count needs distinct targets and a spell that is not its own target, as for Strike.
- `Gameplay.Game.Engage`: states the centre count only as unchanged or reset because the centre card was a target. It does not state that the attacker's item strip is skipped after a Hero target dies.
- `Gameplay.Game.Resolve`: states only that the move moves on (one of FinishGame, FinishRound or PerformMove, matching the final state) and the count as for Engage. The Hero-death case and the item strip are stated on `Gameplay.Game.Engage` and `Gameplay.Game.Conclude`, against the intermediate states of the move, and not lifted.
- `Gameplay.Game.PerformMove`: states the move's ending and the centre count only as Resolve does. It does not state the order of the after-hook calls; that order is stated on `Gameplay.Game.AfterStrike`.
- `Players.GetPlayersOrderedByHeroSpeed`: this extension is called at Game.cs:101 but is not part of this repository. The model assumes its behaviour from its name: the key is the hero's calculated speed; a player without a hero, or a hero without statistics, counts as 0; and equal speeds keep the input order, as LINQ's `OrderByDescending` does.
- `Players.GetPlayersOrderedByHeroSpeedCorrect`: proves the order of that assumed definition. The key, the 0 for a missing hero and the stable tie rule are not taken from the source. `Gameplay.Game.CalculateLayDownOrderPerPlayer` depends on them.
- `CardBasics.NewMove`: the `Move` class is not part of this repository. Game.cs:281-285 sets only `Damage` and `Type`. The model assumes that a new move has every gate (move, attack, skills, items, effects) enabled. A C# `bool` would default to false unless the class initialises it.
- `GameStateQuery.Distinct`: the first-occurrence order of the players listed as having acted is not stated, only membership and no repeats.
- `GameStateQuery.PlayerToDto`: the card assignments are a map keyed by card id. The source gives an array in dictionary enumeration order, which is not modelled.
- `Players.GetPlayersOrderPermutes`: the permutation is stated in three parts: same length, distinct positions, and every position present, the last one player at a time.
- **Null players.** `!player` in the player converter is modelled as the requester not being found among the players.
- **Checks the model does not need.** `Game.IsDead` and the `Game.CanDo` overloads are modelled as predicates but are not used by any proved property.
- **The older `CardGame.Entities` game stub and the user entity.** They hold no live logic.
