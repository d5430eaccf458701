/** The table engine as model/logic/tableLogic.ts writes it: one table
    object whose fields the operations update in place, with the seat scans
    and the pot passes as loops. Each method is proved to leave the table in
    the state the value model of that operation describes, so everything
    proved about the value model holds of the object too. */
module TableLogic {
  import opened TableModel
  import opened Rotation
  import opened PotEngine
  import opened BettingRound
  import opened Seating
  import opened Dealing
  import opened PlayerActions

  /** An operation's exception as the method reports it: the value on a
      normal return, the error otherwise. The table is the object itself. */
  function Reported<T>(o: Outcome<T>): (r: Result<T>)
    ensures r.Success? <==> o.Returned?
    ensures o.Returned? ==> r.value == o.value
    ensures o.Threw? ==> r.error == o.error
  {
    if o.Returned? then Success(o.value) else Failure(o.error)
  }

  /** A player action's outcome as the method reports it, with the table
      the store holds afterwards: unchanged when the action threw. */
  function Settled(o: Result<TableState>, t: TableState): (r: (Result<()>, TableState))
    ensures r.0.Success? <==> o.Success?
    ensures o.Success? ==> r.1 == o.value
    ensures o.Failure? ==> r.0.error == o.error && r.1 == t
  {
    if o.Success? then (Success(()), o.value) else (Failure(o.error), t)
  }

  /** The store: the table it holds is replaced, or updated in place, by
      every operation. */
  class Store {
    var table: TableState

    /** A new store's table: no players, blinds 5 and 10, no hand dealt. */
    constructor ()
      ensures table == InitialTable
    {
      table := InitialTable;
    }

    /** `moveDealer(seatNumber)`: with nobody seated it throws and changes
        nothing; otherwise the dealer, small blind and big blind positions
        are found by scanning clockwise for occupied seats. */
    method MoveDealer(seatNumber: nat) returns (r: Result<()>)
      modifies this
      ensures var m := Rotation.MoveDealer(old(table), seatNumber);
        && (m.Failure? ==> r == Failure(m.error) && table == old(table))
        && (m.Success? ==> r == Success(()) && table == m.value)
    {
      if NoneOccupied(table.seats) {
        return Failure(NoSeatedPlayers);
      }
      // The scans only read the seats, which they leave alone.
      var seats := table.seats;
      var d := ScanForward(IsOccupied(seats), seatNumber % SeatCount);
      assert d == NextOccupied(seats, seatNumber % SeatCount);
      table := table.(dealer := d);
      var sb := ScanForward(IsOccupied(seats), Advance(d.value));
      assert sb == NextOccupied(seats, Advance(d.value));
      table := table.(smallBlindPos := sb);
      var bb := ScanForward(IsOccupied(seats), Advance(sb.value));
      assert bb == NextOccupied(seats, Advance(sb.value));
      table := table.(bigBlindPos := bb);
      r := Success(());
    }

    // -------------------------------------------------------------------
    // gatherBets

    /** The branch of `gatherBets` for at most one bettor: each bet goes
        back to its owner's stack. */
    method ReturnBets(bettors: seq<SeatIndex>)
      requires Increasing(bettors)
      modifies this
      ensures table == old(table).(seats := PotEngine.ReturnBets(old(table).seats, bettors, 0))
    {
      var k := 0;
      while k < |bettors|
        invariant k <= |bettors|
        invariant table == old(table).(seats := table.seats)
        invariant PotEngine.ReturnBets(table.seats, bettors, k) == PotEngine.ReturnBets(old(table).seats, bettors, 0)
      {
        var s := bettors[k];
        table := table.(seats := table.seats[s := Refunded(table.seats[s])]);
        k := k + 1;
      }
    }

    /** One pass of the all-in loop of `gatherBets`: every bettor gives up
        to `low` chips to pot `p`, and a new empty pot is pushed. */
    method PassOnce(p: nat, bettors: seq<SeatIndex>, low: nat)
      requires p < |table.pots| && Increasing(bettors)
      modifies this
      ensures var pass := PassFrom(old(table).seats, old(table).pots[p], bettors, 0, low);
        table == old(table).(seats := pass.0, pots := old(table).pots[p := pass.1] + [Pot(0, [])])
    {
      var pot := table.pots[p];
      var k := 0;
      while k < |bettors|
        invariant k <= |bettors|
        invariant table == old(table).(seats := table.seats)
        invariant PassFrom(table.seats, pot, bettors, k, low) == PassFrom(old(table).seats, old(table).pots[p], bettors, 0, low)
      {
        var s := bettors[k];
        var before := table.seats[s];
        table := table.(seats := table.seats[s := CutSeat(before, low)]);
        pot := CutPot(pot, before, s, low);
        k := k + 1;
      }
      table := table.(pots := table.pots[p := pot] + [Pot(0, [])]);
    }

    /** The all-in loop of `gatherBets`: passes until no bettor is all in. */
    method PassAll(p: nat, bettors: seq<SeatIndex>)
      requires p < |table.pots| && Increasing(bettors)
      modifies this
      ensures var passes := Passes(old(table).seats, old(table).pots, p, bettors);
        table == old(table).(seats := passes.0, pots := passes.1)
    {
      while AllInAmong(table.seats, bettors) != []
        invariant p < |table.pots|
        invariant table == old(table).(seats := table.seats, pots := table.pots)
        invariant Passes(table.seats, table.pots, p, bettors) == Passes(old(table).seats, old(table).pots, p, bettors)
        decreases AllInSet(table.seats, bettors)
      {
        ghost var step := Pass(table.seats, table.pots, p, bettors);
        var low := LowestBet(table.seats, AllInAmong(table.seats, bettors));
        PassOnce(p, bettors, low);
        assert table.seats == step.0 && table.pots == step.1;
      }
    }

    /** The sweep after the all-in loop: every remaining bet of `list`
        goes into pot `p`. */
    method Sweep(p: nat, list: seq<SeatIndex>)
      requires p < |table.pots| && Increasing(list)
      modifies this
      ensures var sweep := SweepFrom(old(table).seats, old(table).pots[p], list, 0);
        table == old(table).(seats := sweep.0, pots := old(table).pots[p := sweep.1])
    {
      var pot := table.pots[p];
      var k := 0;
      while k < |list|
        invariant k <= |list|
        invariant table == old(table).(seats := table.seats)
        invariant SweepFrom(table.seats, pot, list, k) == SweepFrom(old(table).seats, old(table).pots[p], list, 0)
      {
        var s := list[k];
        var before := table.seats[s];
        table := table.(seats := table.seats[s := CutSeat(before, BetAt(before))]);
        pot := CutPot(pot, before, s, BetAt(before));
        k := k + 1;
      }
      table := table.(pots := table.pots[p := pot]);
    }

    /** The last loop of `gatherBets`: folded and departed players lose
        their eligibility for every pot. */
    method FilterEligible()
      modifies this
      ensures table == old(table).(pots := FilterPots(old(table).seats, old(table).pots))
    {
      var j := 0;
      ghost var pots := table.pots;
      while j < |table.pots|
        invariant j <= |table.pots| == |pots|
        invariant table == old(table).(pots := table.pots)
        invariant forall i :: 0 <= i < j ==> table.pots[i] == pots[i].(eligible := KeepWinners(table.seats, pots[i].eligible))
        invariant forall i :: j <= i < |pots| ==> table.pots[i] == pots[i]
      {
        var pot := table.pots[j];
        table := table.(pots := table.pots[j := pot.(eligible := KeepWinners(table.seats, pot.eligible))]);
        j := j + 1;
      }
      assert table.pots == FilterPots(table.seats, pots);
    }

    /** `gatherBets`: the bets move into the pots, a new pot for every
        all-in level, and only the seats and the pots change. */
    method GatherBets()
      modifies this
      ensures table == PotEngine.GatherBets(old(table))
    {
      var bettors := Bettors(table.seats);
      if |bettors| <= 1 {
        ReturnBets(bettors);
        return;
      }
      var cp := CurrentPot(table.pots);
      table := table.(pots := cp.0);
      PassAll(cp.1, bettors);
      Sweep(cp.1, Bettors(table.seats));
      FilterEligible();
    }

    // -------------------------------------------------------------------
    // The flow of a hand: nextAction, nextRound, showdown

    /** `showdown`: the round and the positions cleared, the bets gathered,
        and every player still in shows their cards when more than one is. */
    method Showdown()
      modifies this
      ensures table == BettingRound.Showdown(old(table))
    {
      table := table.(round := None, current := None, last := None);
      GatherBets();
      if ActiveCount(table) > 1 {
        table := table.(seats := RevealActive(table.seats));
      }
    }

    /** The moves of `nextAction` past seats that cannot act, one seat at
        a time; the source takes each by calling `nextAction` again. */
    method MoveOn(fuel: nat) returns (f: nat, moved: bool)
      modifies this
      ensures var k := SkipIdle(old(table), old(table).current, fuel);
        table == old(table).(current := k.0) && f == k.1 && moved == k.2
    {
      f, moved := fuel, false;
      // Only the position moves, so the tests read the table as it was.
      var t0 := table;
      while f > 0 && ActiveCount(t0) != 1 && table.current != t0.last
        invariant table == t0.(current := table.current)
        invariant SkipIdle(t0, table.current, f) == SkipIdle(t0, t0.current, fuel)
        decreases f
      {
        SkipIdleStep(t0, table.current, f);
        table := table.(current := NextSeat(table.current));
        f := f - 1;
        if !MovesOn(t0, table.current) {
          return f, true;
        }
      }
    }

    /** `nextAction`; `fuel` bounds the moves past seats that cannot act. */
    method NextAction(fuel: nat)
      modifies this
      decreases RoundRank(table.round), fuel, 1
      ensures table == BettingRound.NextAction(old(table), fuel)
    {
      var f, moved := MoveOn(fuel);
      if moved || f == 0 {
        return;
      }
      if ActiveCount(table) == 1 {
        Showdown();
      } else {
        NextRound();
      }
    }

    /** `nextRound`: the next street, or on the river every unfolded hand
        turned up and the showdown. */
    method NextRound()
      modifies this
      decreases RoundRank(table.round), 0, 1
      ensures table == BettingRound.NextRound(old(table))
    {
      match table.round
      case None =>
      case Some(PreFlop) => NextStreet(Flop);
      case Some(Flop) => NextStreet(Turn);
      case Some(Turn) => NextStreet(River);
      case Some(River) =>
        table := table.(seats := RevealUnfolded(table.seats));
        Showdown();
    }

    /** The pre-flop, flop and turn cases of `nextRound`: the bets
        gathered, no bet and no raise, the next round, the position reset. */
    method NextStreet(next: Round)
      requires RoundRank(Some(next)) < RoundRank(table.round)
      modifies this
      decreases RoundRank(table.round), 0, 0
      ensures table == BettingRound.NextStreet(old(table), next)
    {
      GatherBets();
      table := table.(currentBet := None, lastRaise := None, round := Some(next));
      ResetPosition();
    }

    /** `resetPosition`: the action to the first seated player after the
        dealer, the dealer last; the action moves on at once when that
        player cannot act or at most one player can. */
    method ResetPosition()
      modifies this
      decreases RoundRank(table.round), StepBound + 1, 0
      ensures table == BettingRound.ResetPosition(old(table))
    {
      if table.dealer.None? {
        table := table.(current := None, last := None);
        return;
      }
      var c := ScanForward(IsOccupied(table.seats), Advance(table.dealer.value));
      table := table.(current := c, last := table.dealer);
      if !Acts(table, table.current) || |ActingSeats(table)| <= 1 {
        NextAction(StepBound);
      }
    }

    // -------------------------------------------------------------------
    // Leaving the table: standUp, cleanUpTable

    /** One player, seated at `s`, leaves: during a hand they fold and are
        marked as leaving, and the action moves on when it was theirs or at
        most one player can still act; between hands the seat is emptied,
        and when it held the button the button moves on, or every position
        is cleared when nobody is left. */
    method StandUpSeat(s: SeatIndex)
      requires table.seats[s].Some?
      modifies this
      ensures table == Seating.StandUpSeat(old(table), s)
    {
      if table.round.Some? {
        LeaveHand(s);
      } else {
        Vacate(s);
      }
    }

    /** The branch of `standUp` during a hand. */
    method LeaveHand(s: SeatIndex)
      requires table.seats[s].Some? && table.round.Some?
      modifies this
      ensures table == Seating.StandUpSeat(old(table), s)
    {
      table := table.(seats := table.seats[s := Some(table.seats[s].value.(folded := true, left := true))]);
      if table.current == Some(s) || |ActingSeats(table)| <= 1 {
        NextAction(StepBound);
      }
    }

    /** The branch of `standUp` between hands. */
    method Vacate(s: SeatIndex)
      modifies this
      ensures table == Seating.Vacate(old(table), s)
    {
      table := table.(seats := table.seats[s := None]);
      if table.dealer == Some(s) {
        if NoneOccupied(table.seats) {
          table := table.(dealer := None, smallBlindPos := None, bigBlindPos := None);
        } else {
          var _ := MoveDealer(s + 1);
        }
      }
    }

    /** `standUp(player)`: the player at `s` leaves unless the seat is
        empty or they are already leaving; returns who stood up. */
    method StandUp(s: SeatIndex) returns (gone: seq<SeatIndex>)
      modifies this
      ensures (gone, table) == Seating.StandUp(old(table), s)
    {
      if table.seats[s].Some? && !table.seats[s].value.left {
        StandUpSeat(s);
        return [s];
      }
      return [];
    }

    /** `standUp(player)` for each of `list`, in order. */
    method StandUpEach(list: seq<SeatIndex>)
      modifies this
      ensures table == Seating.StandUpEach(old(table), list, 0)
    {
      var k := 0;
      while k < |list|
        invariant k <= |list|
        invariant Seating.StandUpEach(table, list, k) == Seating.StandUpEach(old(table), list, 0)
      {
        var _ := StandUp(list[k]);
        k := k + 1;
      }
    }

    /** The loop of `standUp`: each seat of `list` that is still occupied
        is given up in turn. */
    method RemoveEach(list: seq<SeatIndex>)
      modifies this
      ensures table == Seating.RemoveEach(old(table), list, 0)
    {
      var k := 0;
      while k < |list|
        invariant k <= |list|
        invariant Seating.RemoveEach(table, list, k) == Seating.RemoveEach(old(table), list, 0)
      {
        if table.seats[list[k]].Some? {
          StandUpSeat(list[k]);
        }
        k := k + 1;
      }
    }

    /** `standUp(id)`: throws, changing nothing, when no seated player with
        that id is still at the table; otherwise they all leave, in seat
        order, and their seats are returned. */
    method StandUpById(id: string) returns (r: Result<seq<SeatIndex>>)
      modifies this
      ensures var o := Seating.StandUpById(old(table), id);
        table == o.table && r == Reported(o)
    {
      var matches := MatchingSeats(table, id);
      if matches == [] {
        return Failure(PlayerNotFound);
      }
      RemoveEach(matches);
      r := Success(matches);
    }

    /** The last loop of `cleanUpTable`: every seated player is reset for
        the next hand; then the pots, bet and raise are cleared. */
    method ResetHand()
      modifies this
      ensures table == Seating.ResetHand(old(table))
    {
      var i := 0;
      while i < SeatCount
        invariant i <= SeatCount
        invariant table == old(table).(seats := table.seats)
        invariant forall j: SeatIndex :: j < i ==>
          table.seats[j] == if old(table).seats[j].Some? then Some(ResetPlayer(old(table).seats[j].value)) else None
        invariant forall j: SeatIndex :: i <= j ==> table.seats[j] == old(table).seats[j]
      {
        if table.seats[i].Some? {
          table := table.(seats := table.seats[i := Some(ResetPlayer(table.seats[i].value))]);
        }
        i := i + 1;
      }
      table := table.(pots := [Pot(0, [])], currentBet := None, lastRaise := None);
      assert table.seats == Seating.ResetHand(old(table)).seats;
    }

    /** `cleanUpTable`: the departing players give up their seats, then the
        players without chips stand up, then everyone left is reset. */
    method CleanUp()
      modifies this
      ensures table == Seating.CleanUp(old(table))
    {
      RemoveEach(LeavingSeats(table));
      StandUpEach(BustedSeats(table));
      ResetHand();
    }

    // -------------------------------------------------------------------
    // Joining the table: sitDown

    /** The seat search of `sitDown`: the lowest empty seat. */
    method FindEmpty() returns (k: SeatIndex)
      requires !NoneEmpty(table.seats)
      ensures Some(k) == FirstEmpty(table.seats)
    {
      k := 0;
      while table.seats[k].Some?
        invariant k <= FirstEmpty(table.seats).value
        invariant forall j: SeatIndex :: j < k ==> table.seats[j].Some?
        decreases SeatCount - k
      {
        k := k + 1;
      }
    }

    /** `sitDown(id, name, buyIn, seatNumber)`: the tests in the source's
        order, each throwing before any change; then the newcomer takes the
        requested seat or the lowest empty one, and between hands the table
        is cleaned up and the button placed again. */
    method SitDown(id: string, name: string, buyIn: nat, seatNumber: Option<int>) returns (r: Result<SeatIndex>)
      modifies this
      ensures var o := Seating.SitDown(old(table), id, name, buyIn, seatNumber);
        table == o.table && r == Reported(o)
    {
      if NoneEmpty(table.seats) {
        return Failure(TableFull);
      }
      if buyIn < table.buyIn {
        return Failure(BuyInTooLow);
      }
      if HasId(table, id) && !table.debug {
        return Failure(DuplicatePlayer);
      }
      if SeatRefused(table, seatNumber) {
        return Failure(SeatOccupied);
      }
      var s: SeatIndex;
      if seatNumber.Some? && seatNumber.value != 0 {
        s := seatNumber.value;
      } else {
        s := FindEmpty();
      }
      r := TakeSeat(s, Newcomer(table, id, name, buyIn));
    }

    /** The end of `sitDown`: the newcomer takes seat `s`; between hands the
        table is cleaned up and the button placed again. */
    method TakeSeat(s: SeatIndex, p: Player) returns (r: Result<SeatIndex>)
      modifies this
      ensures var o := Seating.TakeSeat(old(table), s, p);
        table == o.table && r == Reported(o)
    {
      table := table.(seats := table.seats[s := Some(p)]);
      if table.round.None? {
        CleanUp();
        var m := MoveDealer(table.dealer.GetOr(s));
        if m.Failure? {
          return Failure(m.error);
        }
      }
      r := Success(s);
    }

    // -------------------------------------------------------------------
    // Starting a hand: dealCards

    /** From the second hand on, when the table moves the button, it moves
        on from the old dealer. */
    method MoveButton()
      requires !NoneOccupied(table.seats)
      modifies this
      ensures table == Dealing.MoveButton(old(table))
    {
      if table.handNumber > 1 && table.autoMoveDealer && table.dealer.Some? {
        MoveButtonIs(table);
        var _ := MoveDealer(table.dealer.value + 1);
      }
    }

    /** The blinds are posted in place, the bet opened at the big blind,
        and the action given to the first seated player after it. */
    method PostBlinds() returns (r: Result<()>)
      modifies this
      ensures var o := Dealing.PostBlinds(old(table));
        table == o.table && r == Reported(o)
    {
      if table.smallBlindPos.None? || table.bigBlindPos.None? {
        return Failure(EmptyBlindSeat);
      }
      var sb := table.smallBlindPos.value;
      var bb := table.bigBlindPos.value;
      if table.seats[sb].None? || table.seats[bb].None? {
        return Failure(EmptyBlindSeat);
      }
      table := table.(seats := table.seats[sb := Some(Posted(table.seats[sb].value, table.smallBlind))]);
      table := table.(seats := table.seats[bb := Some(Posted(table.seats[bb].value, table.bigBlind))]);
      table := table.(currentBet := Some(table.bigBlind));
      var c := ScanForward(IsOccupied(table.seats), Advance(bb));
      table := table.(current := c, last := Some(bb));
      r := Success(());
    }

    /** The part of `dealCards` after the clean-up: with two or more
        players in, the pre-flop round starts, the button moves and the
        blinds are posted. */
    method StartHand() returns (r: Result<()>)
      modifies this
      ensures var o := Dealing.StartHand(old(table));
        table == o.table && r == Reported(o)
    {
      if ActiveCount(table) < 2 {
        return Failure(NotEnoughPlayers);
      }
      ActiveOccupied(table);
      r := BeginHand();
    }

    /** The pre-flop round with the next hand number, the button moved and
        the blinds posted. */
    method BeginHand() returns (r: Result<()>)
      requires !NoneOccupied(table.seats)
      modifies this
      ensures var o := Dealing.BeginHand(old(table));
        table == o.table && r == Reported(o)
    {
      table := table.(round := Some(PreFlop), handNumber := table.handNumber + 1);
      MoveButton();
      r := PostBlinds();
    }

    /** `dealCards`: throws, changing nothing, during a hand; otherwise the
        table is cleaned up and the hand started. */
    method DealCards() returns (r: Result<()>)
      modifies this
      ensures var o := Dealing.DealCards(old(table));
        table == o.table && r == Reported(o)
    {
      if table.round.Some? {
        return Failure(HandAlreadyActive);
      }
      CleanUp();
      r := StartHand();
    }

    // -------------------------------------------------------------------
    // The player actions

    /** `callAction(player)`: the player named by seat `s` matches the bet,
        or goes all in when the stack is short of it. */
    method CallAction(s: SeatIndex) returns (r: Result<()>)
      modifies this
      ensures (r, table) == Settled(PlayerActions.CallAction(old(table), s), old(table))
    {
      if !OnTurn(table, s) {
        return Failure(OutOfTurn);
      }
      var p := table.seats[s].value;
      if Call !in LegalActions(table, p) {
        return Failure(IllegalAction);
      }
      var cb := Val(table.currentBet);
      if cb == 0 {
        return Failure(NoBetToCall);
      }
      TakeCall(s);
      NextAction(StepBound);
      r := Success(());
    }

    /** The chips of `callAction`: up to the bet, or the whole stack when
        it is short of it. */
    method TakeCall(s: SeatIndex)
      requires table.seats[s].Some? && table.seats[s].value.bet < Val(table.currentBet)
      modifies this
      ensures table == Put(old(table), s, Called(old(table).seats[s].value, Val(old(table).currentBet)))
    {
      var p := table.seats[s].value;
      var owed := Val(table.currentBet) - p.bet;
      if owed > p.stackSize {
        p := p.(bet := p.bet + p.stackSize, stackSize := 0);
      } else {
        p := p.(raise := None, stackSize := p.stackSize - owed, bet := p.bet + owed);
      }
      table := table.(seats := table.seats[s := Some(p)]);
    }

    /** `raiseAction(player, amount)`: a short all-in raise, or a full raise
        after which the last position walks back from the raiser to the
        nearest player who can still act. */
    method RaiseAction(s: SeatIndex, amount: Option<int>) returns (r: Result<()>)
      modifies this
      ensures (r, table) == Settled(PlayerActions.RaiseAction(old(table), s, amount), old(table))
    {
      if !OnTurn(table, s) {
        return Failure(OutOfTurn);
      }
      var p := table.seats[s].value;
      var legal := LegalActions(table, p);
      if Raise !in legal && Bet !in legal {
        return Failure(IllegalAction);
      }
      if amount.None? {
        return Failure(InvalidAmount);
      }
      if amount.value > p.stackSize {
        return Failure(InsufficientStack);
      }
      if TooSmall(table, p, amount.value) {
        return Failure(RaiseTooSmall);
      }
      PlaceRaise(s, amount.value);
      NextAction(StepBound);
      r := Success(());
    }

    /** The change `raiseAction` makes once every test has passed. */
    method PlaceRaise(s: SeatIndex, amount: int)
      requires table.seats[s].Some? && amount <= table.seats[s].value.stackSize
      requires !TooSmall(table, table.seats[s].value, amount)
      modifies this
      ensures table == Raised(old(table), s, amount)
    {
      if RaiseBy(table, amount) < MinRaise(table) {
        AllIn(s);
      } else {
        FullRaise(s, amount);
      }
    }

    /** A raise short of the minimum that takes the whole stack. */
    method AllIn(s: SeatIndex)
      requires table.seats[s].Some?
      modifies this
      ensures table == ShortAllIn(old(table), s)
    {
      var p := table.seats[s].value;
      p := p.(bet := p.bet + p.stackSize, stackSize := 0);
      table := table.(seats := table.seats[s := Some(p)], currentBet := Some(p.bet));
    }

    /** A full raise: the chips move, then the last position walks back
        from the raiser to the nearest player who can still act. */
    method FullRaise(s: SeatIndex, amount: nat)
      requires table.seats[s].Some? && amount <= table.seats[s].value.stackSize
      requires Val(table.currentBet) <= amount
      modifies this
      ensures table == PlayerActions.FullRaise(old(table), s, amount)
    {
      MoveRaise(s, amount);
      var l := ScanBackward(ActingTest(table), Retreat(s));
      table := table.(last := l);
    }

    /** The chips of a full raise. */
    method MoveRaise(s: SeatIndex, amount: nat)
      requires table.seats[s].Some? && amount <= table.seats[s].value.stackSize
      requires Val(table.currentBet) <= amount
      modifies this
      ensures table == RaiseChips(old(table), s, amount)
    {
      ghost var t0 := table;
      var p := table.seats[s].value;
      var cb := Val(table.currentBet);
      p := p.(stackSize := p.stackSize - amount, bet := p.bet + amount);
      if cb != 0 {
        p := p.(raise := Some(amount - cb));
        table := table.(lastRaise := Some(amount - cb));
      }
      table := table.(seats := table.seats[s := Some(p)], currentBet := Some(p.bet));
      RaiseChipsIs(t0, s, amount);
    }

    /** `betAction(player, amount)`: the bet tests, then the bet is made as
        a raise. */
    method BetAction(s: SeatIndex, amount: Option<int>) returns (r: Result<()>)
      modifies this
      ensures (r, table) == Settled(PlayerActions.BetAction(old(table), s, amount), old(table))
    {
      if !OnTurn(table, s) {
        return Failure(OutOfTurn);
      }
      var p := table.seats[s].value;
      if Bet !in LegalActions(table, p) {
        return Failure(IllegalAction);
      }
      if amount.None? {
        return Failure(InvalidAmount);
      }
      if Val(table.currentBet) != 0 {
        return Failure(BetAlreadyPlaced);
      }
      if amount.value < table.bigBlind {
        return Failure(BetTooLow);
      }
      if amount.value > p.stackSize {
        return Failure(InsufficientStack);
      }
      r := RaiseAction(s, amount);
    }

    /** `checkAction(player)`: the action moves on. */
    method CheckAction(s: SeatIndex) returns (r: Result<()>)
      modifies this
      ensures (r, table) == Settled(PlayerActions.CheckAction(old(table), s), old(table))
    {
      if !OnTurn(table, s) {
        return Failure(OutOfTurn);
      }
      if Check !in LegalActions(table, table.seats[s].value) {
        return Failure(IllegalAction);
      }
      NextAction(StepBound);
      r := Success(());
    }

    /** `foldAction(player)`: the player folds and the action moves on. */
    method FoldAction(s: SeatIndex) returns (r: Result<()>)
      modifies this
      ensures (r, table) == Settled(PlayerActions.FoldAction(old(table), s), old(table))
    {
      if !OnTurn(table, s) {
        return Failure(OutOfTurn);
      }
      var p := table.seats[s].value;
      if Fold !in LegalActions(table, p) {
        return Failure(IllegalAction);
      }
      table := table.(seats := table.seats[s := Some(p.(folded := true))]);
      NextAction(StepBound);
      r := Success(());
    }
  }
}
