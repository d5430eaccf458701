/** Players joining and leaving the table: `standUp`, `cleanUpTable` and
    `sitDown`. */
module Seating {
  import opened TableModel
  import opened Rotation
  import opened BettingRound

  // ---------------------------------------------------------------------
  // Leaving the table

  /** A player who leaves during a hand stays in the seat, folded and
      marked as having left. */
  function MarkLeft(t: TableState, s: SeatIndex): (r: TableState)
    requires t.seats[s].Some?
    ensures r.seats[s] == Some(t.seats[s].value.(folded := true, left := true))
    ensures r == t.(seats := r.seats)
    ensures forall i: SeatIndex :: i != s ==> r.seats[i] == t.seats[i]
    ensures !IsActing(r, s) && Chips(r.seats[s]) == Chips(t.seats[s])
  {
    t.(seats := t.seats[s := Some(t.seats[s].value.(folded := true, left := true))])
  }

  lemma MarkLeftConserves(t: TableState, s: SeatIndex)
    requires t.seats[s].Some?
    ensures TotalChips(MarkLeft(t, s)) == TotalChips(t)
  {
    TotalUpdate(Chips, t.seats, s, MarkLeft(t, s).seats[s]);
  }

  /** A player who leaves between hands gives up the seat. When that seat
      held the dealer button, the button moves on to the next occupied seat,
      or every position is cleared when nobody is left. */
  function Vacate(t: TableState, s: SeatIndex): (r: TableState)
    ensures r.seats == t.seats[s := None]
    ensures r == t.(seats := r.seats, dealer := r.dealer, smallBlindPos := r.smallBlindPos, bigBlindPos := r.bigBlindPos)
    ensures t.dealer != Some(s) ==> r.dealer == t.dealer && r.smallBlindPos == t.smallBlindPos && r.bigBlindPos == t.bigBlindPos
    ensures t.dealer == Some(s) && NoneOccupied(r.seats) ==>
      r.dealer.None? && r.smallBlindPos.None? && r.bigBlindPos.None?
    ensures t.dealer == Some(s) && !NoneOccupied(r.seats) ==>
      r.dealer.Some? && r.seats[r.dealer.value].Some?
  {
    var t1 := t.(seats := t.seats[s := None]);
    if t.dealer == Some(s) then
      if NoneOccupied(t1.seats) then
        t1.(dealer := None, smallBlindPos := None, bigBlindPos := None)
      else
        var m := MoveDealer(t1, s + 1);
        MoveDealerPositions(t1, s + 1);
        m.value
    else t1
  }

  /** The advance test of `standUp` as the source writes it: it compares the
      current actor with the table's stale copy of the player, which is
      never the same object, so only the count of acting players decides. */
  predicate AdvancesAsWritten(t1: TableState) {
    |ActingSeats(t1)| <= 1
  }

  /** The advance test the source means: the departing player held the
      action, or at most one player can still act. */
  predicate Advances(t1: TableState, s: SeatIndex) {
    t1.current == Some(s) || |ActingSeats(t1)| <= 1
  }

  /** One departure as the source writes it. */
  function StandUpSeatAsWritten(t: TableState, s: SeatIndex): (r: TableState)
    requires t.seats[s].Some?
    ensures t.round.Some? ==> Kept(MarkLeft(t, s), r) && TotalChips(r) == TotalChips(t)
    ensures t.round.Some? ==> r.seats[s].Some? && r.seats[s].value.folded && r.seats[s].value.left
    ensures t.round.Some? && |ActingSeats(MarkLeft(t, s))| > 1 ==> r == MarkLeft(t, s)
    ensures t.round.None? ==> r == Vacate(t, s)
  {
    if t.round.Some? then
      var t1 := MarkLeft(t, s);
      MarkLeftConserves(t, s);
      if AdvancesAsWritten(t1) then NextAction(t1, StepBound) else t1
    else Vacate(t, s)
  }

  /** The table's settings and hand count, which seating never changes. */
  predicate SameSettings(t: TableState, r: TableState) {
    && r.buyIn == t.buyIn && r.smallBlind == t.smallBlind && r.bigBlind == t.bigBlind
    && r.autoMoveDealer == t.autoMoveDealer && r.debug == t.debug && r.handNumber == t.handNumber
  }

  /** One departure, with the advance test the source means: during a hand
      the player folds and is marked as leaving, and the action moves on
      when it was theirs; between hands the seat is given up. */
  function StandUpSeat(t: TableState, s: SeatIndex): (r: TableState)
    requires t.seats[s].Some?
    ensures t.round.Some? ==> Kept(MarkLeft(t, s), r) && TotalChips(r) == TotalChips(t)
    ensures t.round.Some? ==> r.seats[s].Some? && r.seats[s].value.folded && r.seats[s].value.left
    ensures t.round.None? ==> r == Vacate(t, s)
    ensures forall i: SeatIndex :: i != s ==> SameSitter(t.seats[i], r.seats[i])
    ensures SameSettings(t, r)
  {
    if t.round.Some? then
      var t1 := MarkLeft(t, s);
      MarkLeftConserves(t, s);
      if Advances(t1, s) then NextAction(t1, StepBound) else t1
    else Vacate(t, s)
  }

  /** When the departing player held the action and the hand has a last
      position, `standUp` takes the action away from them: the action ends
      up elsewhere, or the betting round is over. */
  lemma StandUpPassesAction(t: TableState, s: SeatIndex)
    requires t.seats[s].Some? && t.round.Some? && t.current == Some(s) && t.last.Some?
    ensures var r := StandUpSeat(t, s);
      r.current != Some(s) || RoundRank(r.round) < RoundRank(t.round)
  {
    NextActionLeavesIdleSeat(MarkLeft(t, s), StepBound, s);
  }

  /** As written, a departing player who held the action keeps it while two
      or more others can still act: the hand then waits on a player who has
      left. */
  lemma StandUpAsWrittenKeepsAction(t: TableState, s: SeatIndex)
    requires t.seats[s].Some? && t.round.Some? && t.current == Some(s)
    requires |ActingSeats(MarkLeft(t, s))| > 1
    ensures StandUpSeatAsWritten(t, s).current == Some(s)
    ensures StandUpSeatAsWritten(t, s).round == t.round
  {
  }

  /** `standUp(player)` for a player object, identified here by its seat:
      the player is found only when seated and not already leaving. Returns
      the seats of the players that stood up. */
  function StandUp(t: TableState, s: SeatIndex): (r: (seq<SeatIndex>, TableState))
    ensures t.seats[s].Some? && !t.seats[s].value.left ==> r == ([s], StandUpSeat(t, s))
    ensures !(t.seats[s].Some? && !t.seats[s].value.left) ==> r == ([], t)
  {
    if t.seats[s].Some? && !t.seats[s].value.left then ([s], StandUpSeat(t, s)) else ([], t)
  }

  /** Each of `list[k..]`, in order, leaves with `standUp(player)`. */
  function StandUpEach(t: TableState, list: seq<SeatIndex>, k: nat): (r: TableState)
    requires k <= |list|
    decreases |list| - k
    ensures SameSettings(t, r) && (t.round.None? ==> r.round.None?)
  {
    if k == |list| then t else StandUpEach(StandUp(t, list[k]).1, list, k + 1)
  }

  /** Each of `list[k..]`, in order, gives up the seat it holds, whether
      or not it is already marked as leaving. */
  function RemoveEach(t: TableState, list: seq<SeatIndex>, k: nat): (r: TableState)
    requires k <= |list|
    decreases |list| - k
    ensures SameSettings(t, r) && (t.round.None? ==> r.round.None?)
  {
    if k == |list| then t
    else
      var s := list[k];
      RemoveEach(if t.seats[s].Some? then StandUpSeat(t, s) else t, list, k + 1)
  }

  /** The seats `standUp(id)` matches: seated, that id, not already leaving. */
  function MatchingSeats(t: TableState, id: string): (r: seq<SeatIndex>)
    ensures forall i: SeatIndex :: i in r <==> t.seats[i].Some? && t.seats[i].value.id == id && !t.seats[i].value.left
  {
    Select((i: SeatIndex) => t.seats[i].Some? && t.seats[i].value.id == id && !t.seats[i].value.left)
  }

  /** `standUp(id)`: every matching player leaves, in seat order; with no
      match it throws before changing anything. */
  function StandUpById(t: TableState, id: string): (r: Outcome<seq<SeatIndex>>)
    ensures r.Threw? <==> MatchingSeats(t, id) == []
    ensures r.Threw? ==> r.error == PlayerNotFound && r.table == t
    ensures r.Returned? ==> r.value == MatchingSeats(t, id)
  {
    var matches := MatchingSeats(t, id);
    if matches == [] then Threw(PlayerNotFound, t)
    else Returned(matches, RemoveEach(t, matches, 0))
  }

  // ---------------------------------------------------------------------
  // Between hands: cleanUpTable

  /** The per-player reset at the end of `cleanUpTable`. */
  function ResetPlayer(p: Player): Player {
    p.(bet := 0, raise := None, folded := false, showCards := false)
  }

  /** Every seated player reset, a single empty pot, no bet and no raise. */
  function ResetHand(t: TableState): (r: TableState)
    ensures r == t.(seats := r.seats, pots := [Pot(0, [])], currentBet := None, lastRaise := None)
    ensures forall i: SeatIndex :: r.seats[i] == if t.seats[i].Some? then Some(ResetPlayer(t.seats[i].value)) else None
  {
    var seats: Seats := seq(SeatCount, (i: int) requires 0 <= i < SeatCount =>
      if t.seats[i].Some? then Some(ResetPlayer(t.seats[i].value)) else None);
    t.(seats := seats, pots := [Pot(0, [])], currentBet := None, lastRaise := None)
  }

  function LeavingSeats(t: TableState): (r: seq<SeatIndex>)
    ensures forall i: SeatIndex :: i in r <==> t.seats[i].Some? && t.seats[i].value.left
  {
    Select((i: SeatIndex) => t.seats[i].Some? && t.seats[i].value.left)
  }

  function BustedSeats(t: TableState): (r: seq<SeatIndex>)
    ensures forall i: SeatIndex :: i in r <==> t.seats[i].Some? && t.seats[i].value.stackSize == 0
  {
    Select((i: SeatIndex) => t.seats[i].Some? && t.seats[i].value.stackSize == 0)
  }

  /** `cleanUpTable` as the source writes it: the departing players are
      passed to `standUp(player)`, which skips anyone already marked as
      leaving, so they stay seated; then the busted players stand up; then
      the hand is reset. */
  function CleanUpAsWritten(t: TableState): (r: TableState)
    ensures SameSettings(t, r) && (t.round.None? ==> r.round.None?)
    ensures r.pots == [Pot(0, [])] && r.currentBet.None? && r.lastRaise.None?
  {
    var t1 := StandUpEach(t, LeavingSeats(t), 0);
    var t2 := StandUpEach(t1, BustedSeats(t1), 0);
    ResetHand(t2)
  }

  /** `cleanUpTable` as the source means it: the departing players give up
      their seats, then the busted players stand up, then the hand is reset. */
  function CleanUp(t: TableState): (r: TableState)
    ensures SameSettings(t, r) && (t.round.None? ==> r.round.None?)
    ensures r.pots == [Pot(0, [])] && r.currentBet.None? && r.lastRaise.None?
  {
    var t1 := RemoveEach(t, LeavingSeats(t), 0);
    var t2 := StandUpEach(t1, BustedSeats(t1), 0);
    ResetHand(t2)
  }

  /** The passes of `standUp(player)` never touch a departing player. */
  lemma {:induction false} StandUpEachKeepsLeaving(t: TableState, list: seq<SeatIndex>, k: nat, i: SeatIndex)
    requires k <= |list|
    requires t.seats[i].Some? && t.seats[i].value.left
    decreases |list| - k
    ensures var r := StandUpEach(t, list, k); r.seats[i].Some? && r.seats[i].value.left
  {
    if k < |list| {
      StandUpEachKeepsLeaving(StandUp(t, list[k]).1, list, k + 1, i);
    }
  }

  /** As written, a player who left during the hand is still seated after
      `cleanUpTable`, and the reset unfolds them into the next hand. */
  lemma CleanUpAsWrittenKeepsLeaving(t: TableState, i: SeatIndex)
    requires t.seats[i].Some? && t.seats[i].value.left
    ensures var r := CleanUpAsWritten(t);
      r.seats[i].Some? && r.seats[i].value.left && IsActive(r.seats, i)
  {
    var t1 := StandUpEach(t, LeavingSeats(t), 0);
    StandUpEachKeepsLeaving(t, LeavingSeats(t), 0, i);
    StandUpEachKeepsLeaving(t1, BustedSeats(t1), 0, i);
  }

  /** Between hands removal only empties seats: what stays is untouched. */
  predicate Removed(t: TableState, r: TableState, gone: SeatIndex -> bool) {
    && r.round == t.round
    && forall i: SeatIndex :: r.seats[i] == if gone(i) then None else t.seats[i]
  }

  lemma {:induction false} RemoveEachSeats(t: TableState, list: seq<SeatIndex>, k: nat)
    requires k <= |list| && t.round.None?
    decreases |list| - k
    ensures Removed(t, RemoveEach(t, list, k), (i: SeatIndex) => i in list[k..])
  {
    if k < |list| {
      var s := list[k];
      var t1 := if t.seats[s].Some? then StandUpSeat(t, s) else t;
      RemoveEachSeats(t1, list, k + 1);
    }
  }

  lemma {:induction false} StandUpEachSeats(t: TableState, list: seq<SeatIndex>, k: nat)
    requires k <= |list| && t.round.None?
    requires forall i: SeatIndex :: t.seats[i].Some? ==> !t.seats[i].value.left
    decreases |list| - k
    ensures Removed(t, StandUpEach(t, list, k), (i: SeatIndex) => i in list[k..])
  {
    if k < |list| {
      StandUpEachSeats(StandUp(t, list[k]).1, list, k + 1);
    }
  }

  /** The fate of one seat in a `cleanUpTable` between hands. */
  lemma CleanUpSeatAt(t: TableState, i: SeatIndex)
    requires t.round.None?
    ensures CleanUp(t).seats[i] ==
      if t.seats[i].Some? && !t.seats[i].value.left && t.seats[i].value.stackSize > 0
      then Some(ResetPlayer(t.seats[i].value)) else None
  {
    var leaving := LeavingSeats(t);
    var t1 := RemoveEach(t, leaving, 0);
    RemoveEachSeats(t, leaving, 0);
    assert leaving[0..] == leaving;
    assert t1.seats[i] == if i in leaving then None else t.seats[i];
    var busted := BustedSeats(t1);
    var t2 := StandUpEach(t1, busted, 0);
    assert forall j: SeatIndex :: t1.seats[j].Some? ==> !t1.seats[j].value.left by {
      forall j: SeatIndex ensures t1.seats[j].Some? ==> !t1.seats[j].value.left {
        assert t1.seats[j] == if j in leaving then None else t.seats[j];
      }
    }
    StandUpEachSeats(t1, busted, 0);
    assert busted[0..] == busted;
    assert t2.seats[i] == if i in busted then None else t1.seats[i];
  }

  /** Between hands, `cleanUpTable` keeps exactly the players who are not
      leaving and have chips, each reset for the next hand; the hand's
      pots, bet and raise are cleared. */
  lemma CleanUpSeats(t: TableState)
    requires t.round.None?
    ensures var r := CleanUp(t);
      forall i: SeatIndex :: r.seats[i] ==
        if t.seats[i].Some? && !t.seats[i].value.left && t.seats[i].value.stackSize > 0
        then Some(ResetPlayer(t.seats[i].value)) else None
    ensures var r := CleanUp(t);
      r.pots == [Pot(0, [])] && r.currentBet.None? && r.lastRaise.None? && r.round.None?
  {
    var t1 := RemoveEach(t, LeavingSeats(t), 0);
    RemoveEachSeats(t, LeavingSeats(t), 0);
    StandUpEachSeats(t1, BustedSeats(t1), 0);
    forall i: SeatIndex {
      CleanUpSeatAt(t, i);
    }
  }

  /** Between hands, nobody who left or went broke is seated after
      `cleanUpTable`, and everyone seated is in the next hand. */
  lemma CleanUpRemovesLeavingAndBusted(t: TableState, i: SeatIndex)
    requires t.round.None?
    ensures var r := CleanUp(t);
      r.seats[i].Some? ==> !r.seats[i].value.left && r.seats[i].value.stackSize > 0 && IsActive(r.seats, i)
  {
    CleanUpSeatAt(t, i);
  }

  // ---------------------------------------------------------------------
  // Joining the table: sitDown

  function IsEmpty(seats: Seats): SeatIndex -> bool {
    (i: SeatIndex) => seats[i].None?
  }

  /** The seat search of `sitDown`: the lowest empty seat. */
  function FirstEmpty(seats: Seats): (r: Option<SeatIndex>)
    ensures r.None? <==> NoneEmpty(seats)
    ensures r.Some? ==> seats[r.value].None? && forall j: SeatIndex :: j < r.value ==> seats[j].Some?
  {
    var r := NextFrom(IsEmpty(seats), 0);
    if r.Some? then
      forall j: SeatIndex | j < r.value ensures seats[j].Some? {
        assert Step(0, j) == j && Dist(0, r.value) == r.value;
      }
      r
    else r
  }

  /** Some seated player has this id. */
  predicate HasId(t: TableState, id: string) {
    exists i: SeatIndex :: t.seats[i].Some? && t.seats[i].value.id == id
  }

  /** `seatNumber && players[seatNumber] !== null`: a requested seat other
      than 0 that is off the table or taken. */
  predicate SeatRefused(t: TableState, seatNumber: Option<int>) {
    seatNumber.Some? && seatNumber.value != 0
    && (seatNumber.value < 0 || seatNumber.value >= SeatCount || t.seats[seatNumber.value].Some?)
  }

  /** Every test of `sitDown` passes. */
  predicate MaySit(t: TableState, id: string, buyIn: nat, seatNumber: Option<int>) {
    !NoneEmpty(t.seats) && buyIn >= t.buyIn && !(HasId(t, id) && !t.debug) && !SeatRefused(t, seatNumber)
  }

  /** The player `sitDown` seats: folded when a hand is under way. */
  function Newcomer(t: TableState, id: string, name: string, buyIn: nat): Player {
    Player(id, name, buyIn, 0, None, t.round.Some?, false, false)
  }

  /** The seat a newcomer takes: the requested one, or the lowest empty
      seat when none or seat 0 was requested. */
  function ChosenSeat(t: TableState, seatNumber: Option<int>): (r: SeatIndex)
    requires !NoneEmpty(t.seats) && !SeatRefused(t, seatNumber)
    ensures t.seats[r].None?
  {
    if seatNumber.Some? && seatNumber.value != 0 then seatNumber.value else FirstEmpty(t.seats).value
  }

  /** The end of `sitDown`: the newcomer `p` takes the empty seat `s`, and
      between hands the table is cleaned up and the dealer button placed
      again, from where it was or else from the new seat. */
  function TakeSeat(t: TableState, s: SeatIndex, p: Player): (r: Outcome<SeatIndex>)
    ensures t.round.Some? ==> r == Returned(s, t.(seats := t.seats[s := Some(p)]))
    ensures t.round.None? ==>
      var c := CleanUp(t.(seats := t.seats[s := Some(p)]));
      && r.table.seats == c.seats
      && (r.Returned? <==> !NoneOccupied(c.seats))
      && (r.Returned? ==> r.value == s && r.table == MoveDealer(c, c.dealer.GetOr(s)).value)
      && (r.Threw? ==> r.error == NoSeatedPlayers && r.table == c)
  {
    var t1 := t.(seats := t.seats[s := Some(p)]);
    if t1.round.None? then
      var t2 := CleanUp(t1);
      match MoveDealer(t2, t2.dealer.GetOr(s))
      case Success(u) => Returned(s, u)
      case Failure(e) => Threw(e, t2)
    else Returned(s, t1)
  }

  /** `sitDown(id, name, buyIn, seatNumber)`: the tests in the source's
      order, each throwing before any change; then the newcomer takes a
      seat. */
  function SitDown(t: TableState, id: string, name: string, buyIn: nat, seatNumber: Option<int>): (r: Outcome<SeatIndex>)
    ensures NoneEmpty(t.seats) ==> r == Threw(TableFull, t)
    ensures !NoneEmpty(t.seats) && buyIn < t.buyIn ==> r == Threw(BuyInTooLow, t)
    ensures !NoneEmpty(t.seats) && buyIn >= t.buyIn && HasId(t, id) && !t.debug ==> r == Threw(DuplicatePlayer, t)
    ensures !NoneEmpty(t.seats) && buyIn >= t.buyIn && !(HasId(t, id) && !t.debug) && SeatRefused(t, seatNumber) ==>
      r == Threw(SeatOccupied, t)
    ensures MaySit(t, id, buyIn, seatNumber) ==>
      r == TakeSeat(t, ChosenSeat(t, seatNumber), Newcomer(t, id, name, buyIn))
  {
    if NoneEmpty(t.seats) then Threw(TableFull, t)
    else if buyIn < t.buyIn then Threw(BuyInTooLow, t)
    else if HasId(t, id) && !t.debug then Threw(DuplicatePlayer, t)
    else if SeatRefused(t, seatNumber) then Threw(SeatOccupied, t)
    else TakeSeat(t, ChosenSeat(t, seatNumber), Newcomer(t, id, name, buyIn))
  }

  /** A buy-in of 0 passes the minimum when that is 0, as on a new table.
      Between hands `cleanUpTable` then stands the newcomer up as busted,
      so `sitDown` reports a seat that is empty again. */
  lemma SitDownZeroBuyInEmptiesSeat(t: TableState, id: string, name: string, seatNumber: Option<int>)
    requires MaySit(t, id, 0, seatNumber) && t.round.None?
    ensures var r := SitDown(t, id, name, 0, seatNumber);
      && r.table.seats[ChosenSeat(t, seatNumber)].None?
      && (r.Returned? ==> r.value == ChosenSeat(t, seatNumber))
  {
    var s := ChosenSeat(t, seatNumber);
    var t1 := t.(seats := t.seats[s := Some(Newcomer(t, id, name, 0))]);
    CleanUpSeatAt(t1, s);
  }

  /** A newcomer with chips who sits down between hands keeps the seat
      through the clean-up, ready for the next hand, and the dealer button
      lands on an occupied seat. */
  lemma SitDownBetweenHands(t: TableState, id: string, name: string, buyIn: nat, seatNumber: Option<int>)
    requires MaySit(t, id, buyIn, seatNumber) && t.round.None? && buyIn > 0
    ensures var r := SitDown(t, id, name, buyIn, seatNumber);
      && r.Returned? && r.value == ChosenSeat(t, seatNumber)
      && r.table.seats[r.value] == Some(Player(id, name, buyIn, 0, None, false, false, false))
      && IsActive(r.table.seats, r.value)
      && r.table.dealer.Some? && r.table.seats[r.table.dealer.value].Some?
  {
    var s := ChosenSeat(t, seatNumber);
    var t1 := t.(seats := t.seats[s := Some(Newcomer(t, id, name, buyIn))]);
    CleanUpSeatAt(t1, s);
    var c := CleanUp(t1);
    MoveDealerPositions(c, c.dealer.GetOr(s));
  }

  /** A newcomer who sits down during a hand sits it out: they are folded,
      so not among the active players, and nothing else changes. */
  lemma SitDownDuringHand(t: TableState, id: string, name: string, buyIn: nat, seatNumber: Option<int>)
    requires MaySit(t, id, buyIn, seatNumber) && t.round.Some?
    ensures var r := SitDown(t, id, name, buyIn, seatNumber);
      && r.Returned?
      && r.table.seats[r.value].Some? && r.table.seats[r.value].value.stackSize == buyIn
      && !IsActive(r.table.seats, r.value)
      && (forall i: SeatIndex :: i != r.value ==> r.table.seats[i] == t.seats[i])
      && TotalChips(r.table) == TotalChips(t) + buyIn
  {
    var s := ChosenSeat(t, seatNumber);
    TotalUpdate(Chips, t.seats, s, Some(Newcomer(t, id, name, buyIn)));
  }
}
