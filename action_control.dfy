/**
 * The turn-admission state machine the game consults before every action: which actions
 * are permitted now, which players are expected, which of them are done, and whether they
 * must act in order. Each permitted action records the players who completed it; for a
 * Single action that marks the player done, for a Repeatable one it does not.
 */
module ActionControl {
  import opened Wrappers
  import opened CardBasics

  datatype ActionName =
    | StartGame | TakeCardsToCommonPool | TakeCardsToHand | CalculateLayDownOrderPerPlayer
    | LayCardsToBattle | PlayDices | ReplayDices | PassReplayDices | AssignDiceToCard
    | RemoveDiceFromCard | ConfirmAssignDicesToCards | ChooseCardSkill | AssignCardTarget
    | RemoveCardTarget | ConfirmCardTargets | StartRound | PerformRound | PerformMove
    | FinishRound | FinishGame | NoAction
  {
    /** The name the client sees: the game method's name, and "None" once the game is over. */
    function Name(): string
    {
      match this
      case StartGame => "StartGame"
      case TakeCardsToCommonPool => "TakeCardsToCommonPool"
      case TakeCardsToHand => "TakeCardsToHand"
      case CalculateLayDownOrderPerPlayer => "CalculateLayDownOrderPerPlayer"
      case LayCardsToBattle => "LayCardsToBattle"
      case PlayDices => "PlayDices"
      case ReplayDices => "ReplayDices"
      case PassReplayDices => "PassReplayDices"
      case AssignDiceToCard => "AssignDiceToCard"
      case RemoveDiceFromCard => "RemoveDiceFromCard"
      case ConfirmAssignDicesToCards => "ConfirmAssignDicesToCards"
      case ChooseCardSkill => "ChooseCardSkill"
      case AssignCardTarget => "AssignCardTarget"
      case RemoveCardTarget => "RemoveCardTarget"
      case ConfirmCardTargets => "ConfirmCardTargets"
      case StartRound => "StartRound"
      case PerformRound => "PerformRound"
      case PerformMove => "PerformMove"
      case FinishRound => "FinishRound"
      case FinishGame => "FinishGame"
      case NoAction => "None"
    }
  }

  datatype Repeat = Single | Repeatable

  /** The free-form sub-actions of the dice and target phases may be repeated. */
  function RepeatOf(a: ActionName): Repeat
  {
    if a in {AssignDiceToCard, RemoveDiceFromCard, ChooseCardSkill, AssignCardTarget, RemoveCardTarget}
    then Repeatable else Single
  }

  datatype ActionEntry = ActionEntry(name: ActionName, repeat: Repeat, madeBy: seq<UserId>)

  datatype Controller = Controller(actions: seq<ActionEntry>, expectedPlayers: seq<UserId>, mustObeyOrder: bool)

  function Names(c: Controller): (r: seq<ActionName>)
    ensures |r| == |c.actions| && forall i :: 0 <= i < |r| ==> r[i] == c.actions[i].name
  {
    seq(|c.actions|, i requires 0 <= i < |c.actions| => c.actions[i].name)
  }

  predicate Permits(c: Controller, a: ActionName)
  {
    a in Names(c)
  }

  /** A player is done once it appears among the completers of a Single action. */
  predicate IsDone(c: Controller, p: UserId)
  {
    exists i :: 0 <= i < |c.actions| && c.actions[i].repeat == Single && p in c.actions[i].madeBy
  }

  function FirstUndoneOf(c: Controller, ps: seq<UserId>): (r: Option<UserId>)
    ensures r.Some? ==> r.value in ps && !IsDone(c, r.value)
    ensures r.None? <==> forall q :: q in ps ==> IsDone(c, q)
  {
    if ps == [] then None
    else if !IsDone(c, ps[0]) then Some(ps[0])
    else FirstUndoneOf(c, ps[1..])
  }

  /** The next player in the expected sequence who is not done yet. */
  function NextUndone(c: Controller): Option<UserId>
  {
    FirstUndoneOf(c, c.expectedPlayers)
  }

  /**
   * `a` is admissible for `player` (None for a system step) iff `a` is permitted and the
   * player is expected, not done, and, under strict order, the next undone player.
   */
  predicate CanDo(c: Controller, a: ActionName, player: Option<UserId>)
  {
    && Permits(c, a)
    && match player {
         case None => true
         case Some(p) =>
           && p in c.expectedPlayers
           && !IsDone(c, p)
           && (c.mustObeyOrder ==> NextUndone(c) == Some(p))
       }
  }

  function FreshEntries(names: seq<ActionName>): (r: seq<ActionEntry>)
    ensures |r| == |names|
    ensures forall i :: 0 <= i < |r| ==> r[i] == ActionEntry(names[i], RepeatOf(names[i]), [])
  {
    seq(|names|, i requires 0 <= i < |names| => ActionEntry(names[i], RepeatOf(names[i]), []))
  }

  /** Replaces the whole state: the given actions, the given players, nobody done. */
  function SetNextExpectedAction(names: seq<ActionName>, players: seq<UserId> := [],
                                 mustObeyOrder: bool := false): (c: Controller)
    ensures Names(c) == names && c.expectedPlayers == players && c.mustObeyOrder == mustObeyOrder
    ensures forall p :: !IsDone(c, p)
  {
    Controller(FreshEntries(names), players, mustObeyOrder)
  }

  function MarkEntry(e: ActionEntry, p: UserId): (r: ActionEntry)
    ensures r.name == e.name && r.repeat == e.repeat && p in r.madeBy
    ensures forall q :: q in r.madeBy <==> q in e.madeBy || q == p
  {
    if p in e.madeBy then e else e.(madeBy := e.madeBy + [p])
  }

  /** Records that `p` completed the current actions. */
  function MarkDone(c: Controller, p: UserId): (r: Controller)
    ensures Names(r) == Names(c) && r.expectedPlayers == c.expectedPlayers
    ensures r.mustObeyOrder == c.mustObeyOrder
    ensures |r.actions| == |c.actions|
    ensures forall i :: 0 <= i < |r.actions| ==> r.actions[i] == MarkEntry(c.actions[i], p)
  {
    var acts := seq(|c.actions|, i requires 0 <= i < |c.actions| => MarkEntry(c.actions[i], p));
    var r := c.(actions := acts);
    assert Names(r) == Names(c);
    r
  }

  predicate AllDone(c: Controller)
  {
    forall q :: q in c.expectedPlayers ==> IsDone(c, q)
  }

  /**
   * Marks `p` done; once every expected player is done, moves to the state given by
   * `names`, `players` and `mustObeyOrder`.
   */
  function SetPlayerDoneOrNextExpectedAction(c: Controller, p: UserId, names: seq<ActionName>,
                                             players: seq<UserId> := [],
                                             mustObeyOrder: bool := false): Controller
  {
    var marked := MarkDone(c, p);
    if AllDone(marked) then SetNextExpectedAction(names, players, mustObeyOrder) else marked
  }

  lemma DoneAfterMark(c: Controller, p: UserId, q: UserId)
    ensures IsDone(MarkDone(c, p), q) <==> IsDone(c, q) || (q == p && exists i :: 0 <= i < |c.actions| && c.actions[i].repeat == Single)
  {
    var m := MarkDone(c, p);
    if IsDone(m, q) {
      var i :| 0 <= i < |m.actions| && m.actions[i].repeat == Single && q in m.actions[i].madeBy;
      assert c.actions[i].repeat == Single;
    }
    if IsDone(c, q) {
      var i :| 0 <= i < |c.actions| && c.actions[i].repeat == Single && q in c.actions[i].madeBy;
      assert q in m.actions[i].madeBy;
    }
    if q == p && exists i :: 0 <= i < |c.actions| && c.actions[i].repeat == Single {
      var i :| 0 <= i < |c.actions| && c.actions[i].repeat == Single;
      assert p in m.actions[i].madeBy;
    }
  }

  /** Some action of `names` is Single, so completing it marks a player done. */
  predicate HasSingle(names: seq<ActionName>)
  {
    exists i :: 0 <= i < |names| && RepeatOf(names[i]) == Single
  }

  /**
   * The controller after the players `qs` complete the current phase one after another,
   * each completion going through SetPlayerDoneOrNextExpectedAction toward the given state.
   */
  function Run(c: Controller, qs: seq<UserId>, next: seq<ActionName>, nextPlayers: seq<UserId>,
               nextOrder: bool): Controller
    decreases |qs|
  {
    if qs == [] then c
    else SetPlayerDoneOrNextExpectedAction(Run(c, qs[..|qs| - 1], next, nextPlayers, nextOrder),
                                           qs[|qs| - 1], next, nextPlayers, nextOrder)
  }

  /**
   * A barrier phase stays open while some expected player has not completed it: the
   * actions, the expected players and the order flag stay, exactly the players who have
   * completed are done, and (without strict order) exactly the expected players who have
   * not completed yet are admitted.
   */
  lemma {:induction false} BarrierOpen(names: seq<ActionName>, ps: seq<UserId>, order: bool, qs: seq<UserId>,
                                       next: seq<ActionName>, nextPlayers: seq<UserId>, nextOrder: bool)
    requires HasSingle(names)
    requires exists p :: p in ps && p !in qs
    ensures var c := Run(SetNextExpectedAction(names, ps, order), qs, next, nextPlayers, nextOrder);
      && Names(c) == names && c.expectedPlayers == ps && c.mustObeyOrder == order
      && (forall i :: 0 <= i < |c.actions| ==> c.actions[i].repeat == RepeatOf(names[i]))
      && (forall u :: IsDone(c, u) <==> u in qs)
      && (!order ==> forall a, u :: a in names ==> (CanDo(c, a, Some(u)) <==> u in ps && u !in qs))
    decreases |qs|
  {
    var c0 := SetNextExpectedAction(names, ps, order);
    if qs != [] {
      var init := qs[..|qs| - 1];
      var q := qs[|qs| - 1];
      assert qs == init + [q];
      var p :| p in ps && p !in qs;
      assert p !in init;
      BarrierOpen(names, ps, order, init, next, nextPlayers, nextOrder);
      var prev := Run(c0, init, next, nextPlayers, nextOrder);
      var i :| 0 <= i < |names| && RepeatOf(names[i]) == Single;
      assert prev.actions[i].repeat == Single;
      var marked := MarkDone(prev, q);
      forall u
        ensures IsDone(marked, u) <==> u in qs
      {
        DoneAfterMark(prev, q, u);
      }
      assert !AllDone(marked) by {
        assert p in marked.expectedPlayers && !IsDone(marked, p);
      }
      assert Run(c0, qs, next, nextPlayers, nextOrder) == marked;
    }
  }

  /**
   * The barrier closes with the last expected player: once every expected player has
   * completed, the controller is exactly the next state.
   */
  lemma BarrierCloses(names: seq<ActionName>, ps: seq<UserId>, order: bool, qs: seq<UserId>, q: UserId,
                      next: seq<ActionName>, nextPlayers: seq<UserId>, nextOrder: bool)
    requires HasSingle(names)
    requires exists p :: p in ps && p !in qs
    requires forall p :: p in ps ==> p in qs || p == q
    ensures Run(SetNextExpectedAction(names, ps, order), qs + [q], next, nextPlayers, nextOrder)
            == SetNextExpectedAction(next, nextPlayers, nextOrder)
  {
    var c0 := SetNextExpectedAction(names, ps, order);
    assert (qs + [q])[..|qs + [q]| - 1] == qs;
    BarrierOpen(names, ps, order, qs, next, nextPlayers, nextOrder);
    var prev := Run(c0, qs, next, nextPlayers, nextOrder);
    var i :| 0 <= i < |names| && RepeatOf(names[i]) == Single;
    assert prev.actions[i].repeat == Single;
    var marked := MarkDone(prev, q);
    forall u | u in marked.expectedPlayers
      ensures IsDone(marked, u)
    {
      DoneAfterMark(prev, q, u);
    }
    assert AllDone(marked);
  }

  /** The first undone player of `ps` is ps[k] when all before it are done and it is not. */
  lemma {:induction false} FirstUndoneAt(c: Controller, ps: seq<UserId>, k: nat)
    requires k < |ps| && !IsDone(c, ps[k])
    requires forall i :: 0 <= i < k ==> IsDone(c, ps[i])
    ensures FirstUndoneOf(c, ps) == Some(ps[k])
    decreases k
  {
    if k > 0 {
      assert IsDone(c, ps[0]);
      FirstUndoneAt(c, ps[1..], k - 1);
    }
  }

  /**
   * Strict order over distinct expected players: after the first k of them have completed
   * in turn, the (k+1)-th is admitted and nobody else is.
   */
  lemma OrderedTurns(names: seq<ActionName>, ps: seq<UserId>, k: nat,
                     next: seq<ActionName>, nextPlayers: seq<UserId>, nextOrder: bool)
    requires HasSingle(names) && k < |ps|
    requires forall i, j :: 0 <= i < j < |ps| ==> ps[i] != ps[j]
    ensures var c := Run(SetNextExpectedAction(names, ps, true), ps[..k], next, nextPlayers, nextOrder);
      forall a, u :: a in names ==> (CanDo(c, a, Some(u)) <==> u == ps[k])
  {
    assert ps[k] !in ps[..k];
    BarrierOpen(names, ps, true, ps[..k], next, nextPlayers, nextOrder);
    var c := Run(SetNextExpectedAction(names, ps, true), ps[..k], next, nextPlayers, nextOrder);
    assert forall i :: 0 <= i < k ==> ps[i] in ps[..k];
    FirstUndoneAt(c, ps, k);
  }

  /**
   * In a phase that expects nobody (a system step), completing the phase on behalf of any
   * player moves straight to the next state, although no player could be admitted to it.
   */
  lemma DoneInSystemPhaseAdvances(c: Controller, a: ActionName, p: UserId,
                                  next: seq<ActionName>, nextPlayers: seq<UserId>)
    requires c.expectedPlayers == []
    ensures !CanDo(c, a, Some(p))
    ensures SetPlayerDoneOrNextExpectedAction(c, p, next, nextPlayers) == SetNextExpectedAction(next, nextPlayers)
  {
  }
}
