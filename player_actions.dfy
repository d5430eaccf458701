/** What a player may do when the action is on them, and the actions
    themselves: `getLegalActions`, `callAction`, `betAction`, `raiseAction`,
    `checkAction` and `foldAction`. A player is named by the seat they hold;
    the out-of-turn test compares that seat with the current position. */
module PlayerActions {
  import opened TableModel
  import opened Rotation
  import opened BettingRound

  datatype Action = Check | Bet | Call | Raise | Fold

  /** The raise test of `getLegalActions` for a player facing the bet
      `cb`: more chips behind than the bet, someone able to act, and for a
      player short of the bet, no raise of their own larger than the last
      raise. */
  predicate MayRaise(t: TableState, p: Player, cb: nat) {
    && p.stackSize > cb && |ActingSeats(t)| > 0
    && (p.bet == cb
        || Val(t.lastRaise) == 0 || Val(p.raise) == 0 || Val(t.lastRaise) >= Val(p.raise))
  }

  /** `getLegalActions(player)`. With no bet to face: check, bet or fold.
      Facing a bet: check when level with it, call when short of it, raise
      when allowed, and always fold. */
  function LegalActions(t: TableState, p: Player): (r: seq<Action>)
    ensures |r| > 0 && r[|r| - 1] == Fold
    ensures Val(t.currentBet) == 0 ==> r == [Check, Bet, Fold]
    ensures Check in r <==> Val(t.currentBet) == 0 || p.bet == Val(t.currentBet)
    ensures Call in r <==> Val(t.currentBet) != 0 && p.bet < Val(t.currentBet)
    ensures Bet in r <==> Val(t.currentBet) == 0
    ensures Raise in r <==>
      Val(t.currentBet) != 0 && p.bet <= Val(t.currentBet) && MayRaise(t, p, Val(t.currentBet))
  {
    var cb := Val(t.currentBet);
    if cb == 0 then [Check, Bet, Fold]
    else
      (if p.bet == cb then [Check] + (if MayRaise(t, p, cb) then [Raise] else []) else [])
      + (if p.bet < cb then [Call] + (if MayRaise(t, p, cb) then [Raise] else []) else [])
      + [Fold]
  }

  /** A player can always fold and is never offered both a check and a call. */
  lemma LegalActionsFoldNeverCheckAndCall(t: TableState, p: Player)
    ensures Fold in LegalActions(t, p)
    ensures !(Check in LegalActions(t, p) && Call in LegalActions(t, p))
  {
  }

  /** A raise is offered only to a player with more chips behind than the bet. */
  lemma LegalActionsRaiseNeedsChips(t: TableState, p: Player)
    ensures Raise in LegalActions(t, p) ==> p.stackSize > Val(t.currentBet)
  {
  }

  /** The action is on the player in seat `s`: the test `player !==
      store.getCurrentActor()` of `callAction` and `raiseAction`, and the
      test `betAction`, `checkAction` and `foldAction` evidently mean. */
  predicate OnTurn(t: TableState, s: SeatIndex) {
    t.current == Some(s) && t.seats[s].Some?
  }

  /** A value the out-of-turn test of `betAction`, `checkAction` and
      `foldAction` compares: `undefined`, `null`, or a seated player. */
  datatype Ref = Undefined | Null | Seated(player: Player)

  /** `getCurrentActor()`: `null` with no current position, otherwise the
      occupant of that seat, itself `null` for an empty seat. */
  function CurrentActor(t: TableState): (r: Ref)
    ensures r != Undefined
    ensures r.Seated? <==> t.current.Some? && t.seats[t.current.value].Some?
  {
    match PlayerAt(t.seats, t.current)
    case None => Null
    case Some(p) => Seated(p)
  }

  /** The out-of-turn test of `betAction`, `checkAction` and `foldAction` as
      written, `this === store.getCurrentActor()`. The handlers are arrow
      functions inside the slice's arrow creator, so `this` is the module's
      `undefined`, which the current actor never is. */
  predicate OnTurnAsWritten(t: TableState) {
    Undefined == CurrentActor(t)
  }

  // ---------------------------------------------------------------------
  // callAction

  /** The chips a call moves: up to the bet when the stack covers it, which
      also clears the player's own raise, else the whole stack. */
  function Called(p: Player, cb: nat): (r: Player)
    requires p.bet < cb
    ensures r.stackSize + r.bet == p.stackSize + p.bet
    ensures cb - p.bet <= p.stackSize ==> r.bet == cb && r.raise.None?
    ensures cb - p.bet > p.stackSize ==> r.stackSize == 0 && r.raise == p.raise
    ensures r == p.(bet := r.bet, stackSize := r.stackSize, raise := r.raise)
  {
    var owed := cb - p.bet;
    if owed > p.stackSize then p.(bet := p.bet + p.stackSize, stackSize := 0)
    else p.(raise := None, stackSize := p.stackSize - owed, bet := p.bet + owed)
  }

  /** The table after one seat's player is replaced: that seat holds the
      new player, every other seat and the rest of the table are as they
      were, and no chip is lost when the player keeps their stack and bet
      together. */
  function Put(t: TableState, s: SeatIndex, p: Player): (r: TableState)
    ensures r.seats[s] == Some(p)
    ensures forall i: SeatIndex :: i != s ==> r.seats[i] == t.seats[i]
    ensures r == t.(seats := r.seats)
    ensures t.seats[s].Some? && p.stackSize + p.bet == t.seats[s].value.stackSize + t.seats[s].value.bet ==>
      TotalChips(r) == TotalChips(t)
  {
    TotalUpdate(Chips, t.seats, s, Some(p));
    t.(seats := t.seats[s := Some(p)])
  }

  /** `callAction(player)`: out of turn, not allowed, or no bet to call
      throw before any change; otherwise the call is made and the action
      moves on. */
  function CallAction(t: TableState, s: SeatIndex): (r: Result<TableState>)
    ensures !OnTurn(t, s) ==> r == Failure(OutOfTurn)
    ensures OnTurn(t, s) && Call !in LegalActions(t, t.seats[s].value) ==> r == Failure(IllegalAction)
    ensures r.Success? <==> OnTurn(t, s) && Call in LegalActions(t, t.seats[s].value)
    ensures r.Success? ==>
      r.value == NextAction(Put(t, s, Called(t.seats[s].value, Val(t.currentBet))), StepBound)
      && TotalChips(r.value) == TotalChips(t)
  {
    if !OnTurn(t, s) then Failure(OutOfTurn)
    else
      var p := t.seats[s].value;
      if Call !in LegalActions(t, p) then Failure(IllegalAction)
      else if Val(t.currentBet) == 0 then Failure(NoBetToCall)
      else
        Success(NextAction(Put(t, s, Called(p, Val(t.currentBet))), StepBound))
  }

  /** The no-bet test of `callAction` never fires: a call is offered only
      against a bet. */
  lemma CallActionNeverNoBet(t: TableState, s: SeatIndex)
    ensures CallAction(t, s) != Failure(NoBetToCall)
  {
  }

  // ---------------------------------------------------------------------
  // raiseAction and betAction

  /** `lastRaise ?? bigBlind` */
  function MinRaise(t: TableState): nat {
    t.lastRaise.GetOr(t.bigBlind)
  }

  /** How far `amount` goes beyond the current bet; the whole amount when
      there is none. */
  function RaiseBy(t: TableState, amount: int): int {
    if Val(t.currentBet) != 0 then amount - Val(t.currentBet) else amount
  }

  /** A raise short of the minimum that does not put the player all in. */
  predicate TooSmall(t: TableState, p: Player, amount: int) {
    RaiseBy(t, amount) < MinRaise(t) && amount < p.stackSize
  }

  /** A raise short of the minimum that takes the player's whole stack: the
      bet grows by the stack and becomes the current bet; the last raise is
      left alone. */
  function ShortAllIn(t: TableState, s: SeatIndex): (r: TableState)
    requires t.seats[s].Some?
    ensures r.seats[s].Some? && r.seats[s].value == t.seats[s].value.(bet := r.seats[s].value.bet, stackSize := 0)
    ensures r.seats[s].value.bet == t.seats[s].value.bet + t.seats[s].value.stackSize
    ensures r.currentBet == Some(r.seats[s].value.bet)
    ensures r == t.(seats := r.seats, currentBet := r.currentBet)
    ensures forall i: SeatIndex :: i != s ==> r.seats[i] == t.seats[i]
    ensures TotalChips(r) == TotalChips(t)
  {
    var p := t.seats[s].value;
    var q := p.(bet := p.bet + p.stackSize, stackSize := 0);
    Put(t, s, q).(currentBet := Some(q.bet))
  }

  /** The chips of a full raise: `amount` more goes into the bet, which
      becomes the current bet. Against a prior bet, the raise over it is
      recorded as the player's raise and as the table's last raise. */
  function RaiseChips(t: TableState, s: SeatIndex, amount: nat): (r: TableState)
    requires t.seats[s].Some? && amount <= t.seats[s].value.stackSize
    requires Val(t.currentBet) <= amount
    ensures var p := t.seats[s].value;
      && r.seats[s].Some? && r.seats[s].value.bet == p.bet + amount
      && r.seats[s].value.stackSize == p.stackSize - amount
      && r.currentBet == Some(p.bet + amount)
      && (Val(t.currentBet) != 0 ==>
            r.seats[s].value.raise == Some(amount - Val(t.currentBet)) && r.lastRaise == Some(amount - Val(t.currentBet)))
      && (Val(t.currentBet) == 0 ==> r.seats[s].value.raise == p.raise && r.lastRaise == t.lastRaise)
      && SameSitter(t.seats[s], r.seats[s])
    ensures r == t.(seats := r.seats, currentBet := r.currentBet, lastRaise := r.lastRaise)
    ensures forall i: SeatIndex :: i != s ==> r.seats[i] == t.seats[i]
    ensures TotalChips(r) == TotalChips(t)
  {
    var p := t.seats[s].value;
    var cb := Val(t.currentBet);
    var q := p.(stackSize := p.stackSize - amount, bet := p.bet + amount);
    var q' := if cb != 0 then q.(raise := Some(amount - cb)) else q;
    Put(t, s, q').(currentBet := Some(q'.bet),
                   lastRaise := if cb != 0 then Some(amount - cb) else t.lastRaise)
  }

  /** RaiseChips, step by step: the stack and the bet first, then the
      player's raise and the table's last raise when there was a bet, then
      the current bet. */
  lemma RaiseChipsIs(t: TableState, s: SeatIndex, amount: nat)
    requires t.seats[s].Some? && amount <= t.seats[s].value.stackSize
    requires Val(t.currentBet) <= amount
    ensures var p := t.seats[s].value;
      var cb := Val(t.currentBet);
      var q := p.(stackSize := p.stackSize - amount, bet := p.bet + amount);
      var q' := if cb != 0 then q.(raise := Some(amount - cb)) else q;
      RaiseChips(t, s, amount) ==
        t.(seats := t.seats[s := Some(q')], currentBet := Some(q'.bet),
           lastRaise := if cb != 0 then Some(amount - cb) else t.lastRaise)
  {
  }

  /** The seat test of `getActingPlayers().includes(...)`. */
  function ActingTest(t: TableState): SeatIndex -> bool {
    (i: SeatIndex) => IsActing(t, i)
  }

  /** A full raise: the chips move as RaiseChips says, and the last position
      to act becomes the nearest seat before the raiser, going backwards
      round the table, whose player can still act. */
  function FullRaise(t: TableState, s: SeatIndex, amount: nat): (r: TableState)
    requires t.seats[s].Some? && amount <= t.seats[s].value.stackSize
    requires Val(t.currentBet) <= amount
    ensures r == RaiseChips(t, s, amount).(last := r.last)
    ensures r.last == PrevFrom(ActingTest(RaiseChips(t, s, amount)), Retreat(s))
    ensures TotalChips(r) == TotalChips(t)
  {
    var t1 := RaiseChips(t, s, amount);
    t1.(last := PrevFrom(ActingTest(t1), Retreat(s)))
  }

  /** `raiseAction(player, amount)`, with `None` standing for an amount
      that is not a number: out of turn, neither raise nor bet allowed, a
      bad amount, more than the stack, or too small a raise short of all in
      throw before any change; otherwise the raise is made and the action
      moves on. */
  function RaiseAction(t: TableState, s: SeatIndex, amount: Option<int>): (r: Result<TableState>)
    ensures !OnTurn(t, s) ==> r == Failure(OutOfTurn)
    ensures OnTurn(t, s) && Raise !in LegalActions(t, t.seats[s].value) && Bet !in LegalActions(t, t.seats[s].value) ==>
      r == Failure(IllegalAction)
    ensures r.Failure? && r.error == InvalidAmount ==> amount.None?
    ensures r.Failure? && r.error == InsufficientStack ==> amount.Some? && amount.value > t.seats[s].value.stackSize
    ensures r.Failure? && r.error == RaiseTooSmall ==> amount.Some? && TooSmall(t, t.seats[s].value, amount.value)
    ensures r.Success? <==>
      && OnTurn(t, s)
      && (Raise in LegalActions(t, t.seats[s].value) || Bet in LegalActions(t, t.seats[s].value))
      && amount.Some? && amount.value <= t.seats[s].value.stackSize
      && !TooSmall(t, t.seats[s].value, amount.value)
    ensures r.Success? ==> r.value == NextAction(Raised(t, s, amount.value), StepBound)
    ensures r.Success? ==> TotalChips(r.value) == TotalChips(t)
  {
    if !OnTurn(t, s) then Failure(OutOfTurn)
    else
      var p := t.seats[s].value;
      var legal := LegalActions(t, p);
      if Raise !in legal && Bet !in legal then Failure(IllegalAction)
      else if amount.None? then Failure(InvalidAmount)
      else if amount.value > p.stackSize then Failure(InsufficientStack)
      else if TooSmall(t, p, amount.value) then Failure(RaiseTooSmall)
      else Success(NextAction(Raised(t, s, amount.value), StepBound))
  }

  /** The change `raiseAction` makes once every test has passed. */
  function Raised(t: TableState, s: SeatIndex, amount: int): (r: TableState)
    requires t.seats[s].Some? && amount <= t.seats[s].value.stackSize
    requires !TooSmall(t, t.seats[s].value, amount)
    ensures RaiseBy(t, amount) < MinRaise(t) ==> r == ShortAllIn(t, s)
    ensures RaiseBy(t, amount) >= MinRaise(t) ==> amount >= 0 && r == FullRaise(t, s, amount)
    ensures TotalChips(r) == TotalChips(t)
  {
    if RaiseBy(t, amount) < MinRaise(t) then ShortAllIn(t, s)
    else FullRaise(t, s, amount)
  }

  /** With a raise or a bet allowed, the current bet never goes down. */
  lemma RaisedKeepsBetRising(t: TableState, s: SeatIndex, amount: int)
    requires t.seats[s].Some? && amount <= t.seats[s].value.stackSize
    requires !TooSmall(t, t.seats[s].value, amount)
    requires Raise in LegalActions(t, t.seats[s].value) || Bet in LegalActions(t, t.seats[s].value)
    ensures Val(Raised(t, s, amount).currentBet) >= Val(t.currentBet)
  {
  }

  /** After a full raise, the last position to act, when there is one,
      holds a player who can still act, and every seat passed over on the
      way back from the raiser cannot. */
  lemma FullRaiseLastActor(t: TableState, s: SeatIndex, amount: nat)
    requires t.seats[s].Some? && amount <= t.seats[s].value.stackSize
    requires Val(t.currentBet) <= amount
    ensures var r := FullRaise(t, s, amount);
      && (r.last.None? <==> forall i: SeatIndex :: !IsActing(r, i))
      && (r.last.Some? ==>
            && IsActing(r, r.last.value)
            && forall d :: 0 <= d < BackDist(Retreat(s), r.last.value) ==> !IsActing(r, Back(Retreat(s), d)))
  {
    var t1 := RaiseChips(t, s, amount);
    var r := FullRaise(t, s, amount);
    assert forall i: SeatIndex :: IsActing(r, i) == ActingTest(t1)(i);
  }

  /** `betAction(player, amount)`: out of turn, a bet not allowed, a bad
      amount, a bet already out, an amount under the big blind, or more
      than the stack throw before any change; otherwise the bet is made as
      a raise. */
  function BetAction(t: TableState, s: SeatIndex, amount: Option<int>): (r: Result<TableState>)
    ensures !OnTurn(t, s) ==> r == Failure(OutOfTurn)
    ensures OnTurn(t, s) && Bet !in LegalActions(t, t.seats[s].value) ==> r == Failure(IllegalAction)
    ensures r.Failure? && r.error == BetTooLow ==> amount.Some? && amount.value < t.bigBlind
    ensures r.Failure? && r.error == InsufficientStack ==> amount.Some? && amount.value > t.seats[s].value.stackSize
    ensures r.Success? ==>
      && OnTurn(t, s) && Val(t.currentBet) == 0 && amount.Some?
      && t.bigBlind <= amount.value <= t.seats[s].value.stackSize
      && r == RaiseAction(t, s, amount)
  {
    BetActionWith(t, s, amount, OnTurn(t, s))
  }

  /** The tests and the bet of `betAction` once the out-of-turn test has
      given `onTurn`. */
  function BetActionWith(t: TableState, s: SeatIndex, amount: Option<int>, onTurn: bool): Result<TableState>
    requires onTurn ==> t.seats[s].Some?
  {
    if !onTurn then Failure(OutOfTurn)
    else
      var p := t.seats[s].value;
      if Bet !in LegalActions(t, p) then Failure(IllegalAction)
      else if amount.None? then Failure(InvalidAmount)
      else if Val(t.currentBet) != 0 then Failure(BetAlreadyPlaced)
      else if amount.value < t.bigBlind then Failure(BetTooLow)
      else if amount.value > p.stackSize then Failure(InsufficientStack)
      else RaiseAction(t, s, amount)
  }

  /** A legal bet of at least the big blind goes through: the raise it
      turns into is never too small. */
  lemma BetActionSucceeds(t: TableState, s: SeatIndex, amount: int)
    requires OnTurn(t, s) && Val(t.currentBet) == 0 && t.lastRaise.None?
    requires t.bigBlind <= amount <= t.seats[s].value.stackSize
    ensures BetAction(t, s, Some(amount)).Success?
  {
  }

  /** The bet-already-out test of `betAction` never fires: a bet is offered
      only when there is none. */
  lemma BetActionNeverAlreadyPlaced(t: TableState, s: SeatIndex, amount: Option<int>)
    ensures BetAction(t, s, amount) != Failure(BetAlreadyPlaced)
  {
  }

  // ---------------------------------------------------------------------
  // checkAction and foldAction

  /** `checkAction(player)`: the action moves on and no chip moves. */
  function CheckAction(t: TableState, s: SeatIndex): (r: Result<TableState>)
    ensures !OnTurn(t, s) ==> r == Failure(OutOfTurn)
    ensures r.Success? <==> OnTurn(t, s) && Check in LegalActions(t, t.seats[s].value)
    ensures r.Failure? ==> r.error == OutOfTurn || r.error == IllegalAction
    ensures r.Success? ==> Kept(t, r.value) && TotalChips(r.value) == TotalChips(t)
    ensures r.Success? ==> r.value == NextAction(t, StepBound)
  {
    CheckActionWith(t, s, OnTurn(t, s))
  }

  /** The rest of `checkAction` once the out-of-turn test has given `onTurn`. */
  function CheckActionWith(t: TableState, s: SeatIndex, onTurn: bool): Result<TableState>
    requires onTurn ==> t.seats[s].Some?
  {
    if !onTurn then Failure(OutOfTurn)
    else if Check !in LegalActions(t, t.seats[s].value) then Failure(IllegalAction)
    else Success(NextAction(t, StepBound))
  }

  /** `foldAction(player)`: the player folds and the action moves on; no
      chip moves and the player stays folded. */
  function FoldAction(t: TableState, s: SeatIndex): (r: Result<TableState>)
    ensures !OnTurn(t, s) ==> r == Failure(OutOfTurn)
    ensures r.Success? <==> OnTurn(t, s)
    ensures r.Success? ==>
      && r.value.seats[s].Some? && r.value.seats[s].value.folded
      && TotalChips(r.value) == TotalChips(t)
      && (forall i: SeatIndex :: i != s ==> SameSitter(t.seats[i], r.value.seats[i]))
    ensures r.Success? ==> r.value == NextAction(Put(t, s, t.seats[s].value.(folded := true)), StepBound)
  {
    FoldActionWith(t, s, OnTurn(t, s))
  }

  /** The rest of `foldAction` once the out-of-turn test has given `onTurn`. */
  function FoldActionWith(t: TableState, s: SeatIndex, onTurn: bool): Result<TableState>
    requires onTurn ==> t.seats[s].Some?
  {
    if !onTurn then Failure(OutOfTurn)
    else if Fold !in LegalActions(t, t.seats[s].value) then Failure(IllegalAction)
    else
      var p := t.seats[s].value;
      Success(NextAction(Put(t, s, p.(folded := true)), StepBound))
  }

  // ---------------------------------------------------------------------
  // The out-of-turn test of betAction, checkAction and foldAction as written

  /** `betAction` with its `this` test as written. */
  function BetActionAsWritten(t: TableState, s: SeatIndex, amount: Option<int>): Result<TableState> {
    BetActionWith(t, s, amount, OnTurnAsWritten(t))
  }

  /** `checkAction` with its `this` test as written. */
  function CheckActionAsWritten(t: TableState, s: SeatIndex): Result<TableState> {
    CheckActionWith(t, s, OnTurnAsWritten(t))
  }

  /** `foldAction` with its `this` test as written. */
  function FoldActionAsWritten(t: TableState, s: SeatIndex): Result<TableState> {
    FoldActionWith(t, s, OnTurnAsWritten(t))
  }

  /** As written, `betAction`, `checkAction` and `foldAction` refuse every
      player on every table as out of turn, while the player the action is
      on may fold, and may check or bet whenever no bet is out. */
  lemma ActionsAsWrittenAlwaysOutOfTurn(t: TableState, s: SeatIndex, amount: Option<int>)
    ensures BetActionAsWritten(t, s, amount) == Failure(OutOfTurn)
    ensures CheckActionAsWritten(t, s) == Failure(OutOfTurn)
    ensures FoldActionAsWritten(t, s) == Failure(OutOfTurn)
    ensures OnTurn(t, s) ==> FoldAction(t, s).Success?
    ensures OnTurn(t, s) && Val(t.currentBet) == 0 ==> CheckAction(t, s).Success?
    ensures OnTurn(t, s) && Val(t.currentBet) == 0 && t.lastRaise.None? && amount.Some?
              && t.bigBlind <= amount.value <= t.seats[s].value.stackSize ==>
              BetAction(t, s, amount).Success?
  {
    if OnTurn(t, s) && Val(t.currentBet) == 0 && t.lastRaise.None? && amount.Some?
       && t.bigBlind <= amount.value <= t.seats[s].value.stackSize {
      BetActionSucceeds(t, s, amount.value);
    }
  }
}
