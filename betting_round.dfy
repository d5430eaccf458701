/** The flow of a hand: `nextAction`, `nextRound` with its `resetPosition`,
    and `showdown`. */
module BettingRound {
  import opened TableModel
  import opened Rotation
  import opened PotEngine

  /** How many betting rounds remain; it falls with every change of round. */
  function RoundRank(r: Option<Round>): nat {
    match r
    case None => 0
    case Some(River) => 1
    case Some(Turn) => 2
    case Some(Flop) => 3
    case Some(PreFlop) => 4
  }

  /** `nextAction` moves the action one seat at a time; it is granted one
      full circle of steps each time it is entered afresh. */
  const StepBound: nat := SeatCount

  function ActiveCount(t: TableState): nat {
    |ActiveSeats(t)|
  }

  /** The seat `pos` holds a player of `getActingPlayers`: the source's
      `getActingPlayers().includes(getCurrentActor())`. */
  predicate Acts(t: TableState, pos: Option<SeatIndex>) {
    pos.Some? && IsActing(t, pos.value)
  }

  /** The test of `nextAction` once the action has moved to `pos`: move
      it again when that seat holds no acting player, or when nobody has
      bet and only one player can act. Neither depends on where the action
      is, so the table before the move answers it. */
  predicate MovesOn(t: TableState, pos: Option<SeatIndex>) {
    !Acts(t, pos) || (Val(t.currentBet) == 0 && |ActingSeats(t)| == 1)
  }

  /** What the flow of a hand never changes: the table's settings, the
      dealer and blind seats, the hand number, and who sits where, folded
      or departed. */
  predicate Kept(t: TableState, r: TableState) {
    && r.buyIn == t.buyIn && r.smallBlind == t.smallBlind && r.bigBlind == t.bigBlind
    && r.autoMoveDealer == t.autoMoveDealer && r.debug == t.debug
    && r.dealer == t.dealer && r.smallBlindPos == t.smallBlindPos && r.bigBlindPos == t.bigBlindPos
    && r.handNumber == t.handNumber
    && SameSitters(t.seats, r.seats)
  }

  lemma KeptActive(t: TableState, r: TableState)
    requires Kept(t, r)
    ensures ActiveSeats(r) == ActiveSeats(t)
  {
    ActiveSeatsSame(t, r);
  }

  lemma KeptTrans(a: TableState, b: TableState, c: TableState)
    requires Kept(a, b) && Kept(b, c)
    ensures Kept(a, c)
  {
  }

  /** `player.showCards = true` for every active player. */
  function RevealActive(seats: Seats): (r: Seats)
    ensures forall i: SeatIndex :: SameSitter(seats[i], r[i]) && Chips(r[i]) == Chips(seats[i])
    ensures forall i: SeatIndex :: r[i] == if IsActive(seats, i) then Some(seats[i].value.(showCards := true)) else seats[i]
  {
    seq(SeatCount, (i: int) requires 0 <= i < SeatCount =>
      if IsActive(seats, i) then Some(seats[i].value.(showCards := true)) else seats[i])
  }

  /** `player.showCards = !player.folded` for every seated player. */
  function RevealUnfolded(seats: Seats): (r: Seats)
    ensures forall i: SeatIndex :: SameSitter(seats[i], r[i]) && Chips(r[i]) == Chips(seats[i])
    ensures forall i: SeatIndex :: r[i] == if seats[i].Some? then Some(seats[i].value.(showCards := !seats[i].value.folded)) else seats[i]
  {
    seq(SeatCount, (i: int) requires 0 <= i < SeatCount =>
      if seats[i].Some? then Some(seats[i].value.(showCards := !seats[i].value.folded)) else seats[i])
  }

  lemma RevealConserves(seats: Seats, r: Seats)
    requires forall i: SeatIndex :: Chips(r[i]) == Chips(seats[i])
    ensures Total(Chips, r) == Total(Chips, seats)
  {
    TotalPointwise(Chips, r, seats);
  }

  /** The first half of `showdown`: no round, no position, bets gathered. */
  function EndHand(t: TableState): (r: TableState)
    ensures r.round.None? && r.current.None? && r.last.None?
    ensures r.currentBet == t.currentBet && r.lastRaise == t.lastRaise
    ensures forall i: SeatIndex :: BetAt(r.seats[i]) == 0
    ensures Kept(t, r)
    ensures TotalChips(r) == TotalChips(t)
  {
    var t0 := t.(round := None, current := None, last := None);
    GatherBetsConserves(t0);
    GatherBetsClearsBets(t0);
    GatherBetsKeepsSitters(t0);
    GatherBets(t0)
  }

  /** The second half of `showdown`: with more than one player still in,
      every one of them shows their cards. */
  function ShowHands(t: TableState): (r: TableState)
    ensures r == t.(seats := r.seats)
    ensures forall i: SeatIndex :: BetAt(r.seats[i]) == BetAt(t.seats[i])
    ensures Kept(t, r)
    ensures TotalChips(r) == TotalChips(t)
    ensures ActiveCount(r) > 1 ==> forall i: SeatIndex :: IsActive(r.seats, i) ==> r.seats[i].value.showCards
    ensures ActiveCount(r) <= 1 ==> r == t
  {
    var shown := t.(seats := RevealActive(t.seats));
    RevealConserves(t.seats, shown.seats);
    KeptActive(t, shown);
    if ActiveCount(t) > 1 then shown else t
  }

  /** `showdown`: the round and both positions are cleared, the bets are
      gathered, and when more than one player is still in, every one of them
      shows their cards. Awarding the pots is not part of the source. */
  function Showdown(t: TableState): (r: TableState)
    ensures r.round.None? && r.current.None? && r.last.None?
    ensures r.currentBet == t.currentBet && r.lastRaise == t.lastRaise
    ensures forall i: SeatIndex :: BetAt(r.seats[i]) == 0
    ensures Kept(t, r)
    ensures TotalChips(r) == TotalChips(t)
    ensures ActiveCount(r) > 1 ==> forall i: SeatIndex :: IsActive(r.seats, i) ==> r.seats[i].value.showCards
  {
    var e := EndHand(t);
    KeptTrans(t, e, ShowHands(e));
    ShowHands(e)
  }

  /** One step of the action: `currentPosition` moves one seat clockwise,
      wrapping at the seat count. */
  function NextSeat(pos: Option<SeatIndex>): (r: Option<SeatIndex>)
    ensures r.Some? <==> pos.Some?
    ensures pos.Some? ==> r.value == Advance(pos.value)
  {
    if pos.Some? then Some(Advance(pos.value)) else None
  }

  /** The moves of `nextAction` past seats that cannot act, from the action
      at `pos`: while more than one player is still in and the action is not
      at the last position, the action moves one seat clockwise, and stops
      there unless MovesOn. The result is where the moves stop, the fuel
      left, and whether they stopped at a player who can act. */
  function SkipIdle(t: TableState, pos: Option<SeatIndex>, fuel: nat): (r: (Option<SeatIndex>, nat, bool))
    decreases fuel
    ensures r.1 <= fuel
  {
    if fuel == 0 || ActiveCount(t) == 1 || pos == t.last then (pos, fuel, false)
    else
      var next := NextSeat(pos);
      if MovesOn(t, next) then SkipIdle(t, next, fuel - 1) else (next, fuel - 1, true)
  }

  /** One step of SkipIdle, as the loop that takes the steps one by one
      sees it. */
  lemma SkipIdleStep(t: TableState, pos: Option<SeatIndex>, fuel: nat)
    requires fuel > 0 && ActiveCount(t) != 1 && pos != t.last
    ensures var next := NextSeat(pos);
      SkipIdle(t, pos, fuel) == if MovesOn(t, next) then SkipIdle(t, next, fuel - 1) else (next, fuel - 1, true)
  {
  }

  /** `nextAction`: showdown when one active player is left; the next round
      when the action has reached the last position; otherwise move the
      action on, and keep moving it past empty seats and players who cannot
      act (and past the only acting player when there is no bet to match).
      The source moves it again by calling itself; each such call is one
      step of SkipIdle. With no fuel left the table is returned as it is. */
  function NextAction(t: TableState, fuel: nat): (r: TableState)
    decreases RoundRank(t.round), fuel, 1
    ensures RoundRank(r.round) <= RoundRank(t.round)
    ensures Kept(t, r)
    ensures TotalChips(r) == TotalChips(t)
    ensures t.currentBet.None? && t.lastRaise.None? ==> r.currentBet.None? && r.lastRaise.None?
  {
    var s := SkipIdle(t, t.current, fuel);
    var t1 := t.(current := s.0);
    if s.2 || s.1 == 0 then t1
    else if ActiveCount(t1) == 1 then
      KeptTrans(t, t1, Showdown(t1));
      Showdown(t1)
    else
      KeptTrans(t, t1, NextRound(t1));
      NextRound(t1)
  }

  /** A new betting round: bets gathered, no bet to match and no raise. */
  function OpenRound(t: TableState, next: Round): (r: TableState)
    ensures r.round == Some(next) && r.currentBet.None? && r.lastRaise.None?
    ensures Kept(t, r)
    ensures TotalChips(r) == TotalChips(t)
    ensures forall i: SeatIndex :: BetAt(r.seats[i]) == 0
  {
    var g := GatherBets(t);
    GatherBetsConserves(t);
    GatherBetsClearsBets(t);
    GatherBetsKeepsSitters(t);
    g.(currentBet := None, lastRaise := None, round := Some(next))
  }

  /** `nextRound`: pre-flop, flop and turn each gather the bets, clear the
      bet and the raise, move to the next round and reset the position; the
      river turns up every unfolded hand and goes to showdown. Without a
      round nothing happens. */
  function NextRound(t: TableState): (r: TableState)
    decreases RoundRank(t.round), 0, 1
    ensures t.round.None? ==> r == t
    ensures t.round.Some? ==> RoundRank(r.round) < RoundRank(t.round)
    ensures Kept(t, r)
    ensures TotalChips(r) == TotalChips(t)
    ensures (t.round.Some? && t.round != Some(River)) || (t.currentBet.None? && t.lastRaise.None?) ==>
              r.currentBet.None? && r.lastRaise.None?
  {
    match t.round
    case None => t
    case Some(PreFlop) => NextStreet(t, Flop)
    case Some(Flop) => NextStreet(t, Turn)
    case Some(Turn) => NextStreet(t, River)
    case Some(River) =>
      var u := TurnUpHands(t);
      KeptTrans(t, u, Showdown(u));
      Showdown(u)
  }

  /** One of the pre-flop, flop and turn cases of `nextRound`. */
  function NextStreet(t: TableState, next: Round): (r: TableState)
    requires RoundRank(Some(next)) < RoundRank(t.round)
    decreases RoundRank(t.round), 0, 0
    ensures RoundRank(r.round) < RoundRank(t.round)
    ensures Kept(t, r)
    ensures TotalChips(r) == TotalChips(t)
    ensures r.currentBet.None? && r.lastRaise.None?
  {
    var o := OpenRound(t, next);
    KeptTrans(t, o, ResetPosition(o));
    ResetPosition(o)
  }

  /** On the river every unfolded hand is turned up. */
  function TurnUpHands(t: TableState): (r: TableState)
    ensures r == t.(seats := r.seats)
    ensures Kept(t, r)
    ensures TotalChips(r) == TotalChips(t)
    ensures forall i: SeatIndex :: t.seats[i].Some? ==> r.seats[i].value.showCards == !t.seats[i].value.folded
  {
    var u := t.(seats := RevealUnfolded(t.seats));
    RevealConserves(t.seats, u.seats);
    u
  }

  /** `resetPosition`: the action goes to the first occupied seat after the
      dealer and the last position to the dealer; when that seat cannot act,
      or at most one player can, the action moves on at once. */
  function ResetPosition(t: TableState): (r: TableState)
    decreases RoundRank(t.round), StepBound + 1, 0
    ensures RoundRank(r.round) <= RoundRank(t.round)
    ensures Kept(t, r)
    ensures TotalChips(r) == TotalChips(t)
    ensures t.currentBet.None? && t.lastRaise.None? ==> r.currentBet.None? && r.lastRaise.None?
  {
    if t.dealer.None? then t.(current := None, last := None)
    else
      var t1 := t.(current := NextOccupied(t.seats, Advance(t.dealer.value)), last := t.dealer);
      if !Acts(t1, t1.current) || |ActingSeats(t1)| <= 1 then
        KeptTrans(t, t1, NextAction(t1, StepBound));
        NextAction(t1, StepBound)
      else t1
  }

  // ---------------------------------------------------------------------
  // Properties of the flow

  /** When the action reaches the last position the hand leaves the current
      betting round; a round is never entered twice. */
  lemma NextActionAtLastLeavesRound(t: TableState, fuel: nat)
    requires fuel > 0 && t.round.Some? && ActiveCount(t) != 1 && t.current == t.last
    ensures RoundRank(NextAction(t, fuel).round) < RoundRank(t.round)
  {
  }

  /** When every player but one has folded, nextAction ends the hand: no
      round, no position, no bet left on the table. */
  lemma NextActionLastPlayerStanding(t: TableState, fuel: nat)
    requires fuel > 0 && ActiveCount(t) == 1
    ensures var r := NextAction(t, fuel);
      && r.round.None? && r.current.None? && r.last.None?
      && forall i: SeatIndex :: BetAt(r.seats[i]) == 0
  {
  }

  /** Otherwise the action moves one seat clockwise, and stays there when
      that seat holds a player who can act and the move-on test fails. */
  lemma NextActionPassesToNextSeat(t: TableState, fuel: nat)
    requires fuel > 0 && ActiveCount(t) != 1 && t.current != t.last && t.current.Some?
    requires !MovesOn(t, Some(Advance(t.current.value)))
    ensures NextAction(t, fuel) == t.(current := Some(Step(t.current.value, 1)))
    ensures IsActing(t, Step(t.current.value, 1))
  {
  }

  /** `resetPosition` with a dealer: when the first seated player after the
      dealer can act and so can somebody else, the action is theirs and the
      dealer acts last; nothing else changes. */
  lemma ResetPositionPlacesAction(t: TableState)
    requires t.dealer.Some?
    requires var c := NextOccupied(t.seats, Advance(t.dealer.value));
      c.Some? && IsActing(t, c.value) && |ActingSeats(t)| > 1
    ensures var r := ResetPosition(t);
      && r == t.(current := r.current, last := t.dealer)
      && r.current.Some? && FirstFrom(IsOccupied(t.seats), Advance(t.dealer.value), r.current.value)
  {
    var t1 := t.(current := NextOccupied(t.seats, Advance(t.dealer.value)), last := t.dealer);
    assert ActingSeats(t1) == ActingSeats(t);
  }

  /** `resetPosition` without a dealer clears both positions. */
  lemma ResetPositionWithoutDealer(t: TableState)
    requires t.dealer.None?
    ensures ResetPosition(t) == t.(current := None, last := None)
  {
  }

  /** After the flop, turn or river opens, before anyone acts, nobody has a
      bet in front of them: everything was gathered into the pots. */
  lemma OpenRoundClearsBets(t: TableState, next: Round)
    ensures forall i: SeatIndex :: BetAt(OpenRound(t, next).seats[i]) == 0
    ensures PotTotal(OpenRound(t, next).pots) + Total(StackAt, OpenRound(t, next).seats)
            == TotalChips(t)
  {
    var r := OpenRound(t, next);
    TotalSplit(r.seats);
    TotalZero(BetAt, r.seats);
  }

  /** The moves past idle seats never stop at a seat that cannot act;
      with enough fuel to reach the last position they stop either at a
      player who can act or, fuel to spare, where the betting round ends. */
  lemma {:induction false} SkipIdleLeavesIdleSeat(t: TableState, pos: SeatIndex, fuel: nat, s: SeatIndex)
    requires t.last.Some? && !IsActing(t, s)
    requires fuel > Dist(pos, t.last.value)
    decreases fuel
    ensures var k := SkipIdle(t, Some(pos), fuel); k.2 ==> k.0 != Some(s)
    ensures var k := SkipIdle(t, Some(pos), fuel); !k.2 ==> k.1 > 0 && (ActiveCount(t) == 1 || k.0 == t.last)
  {
    if ActiveCount(t) != 1 && Some(pos) != t.last {
      DistAdvance(pos, t.last.value);
      if MovesOn(t, Some(Advance(pos))) {
        SkipIdleLeavesIdleSeat(t, Advance(pos), fuel - 1, s);
      }
    }
  }

  /** Once the action sits with a seat that cannot act, nextAction takes it
      away from that seat before the betting round ends, provided there is a
      last position and enough fuel to reach it: one circle of the table
      always is. */
  lemma NextActionLeavesIdleSeat(t: TableState, fuel: nat, s: SeatIndex)
    requires t.round.Some? && t.current.Some? && t.last.Some?
    requires !IsActing(t, s)
    requires fuel > Dist(t.current.value, t.last.value)
    ensures var r := NextAction(t, fuel);
      RoundRank(r.round) < RoundRank(t.round) || r.current != Some(s)
  {
    SkipIdleLeavesIdleSeat(t, t.current.value, fuel, s);
  }
}
